/** The slot list in every reachable state: it stays well formed, two-phase disconnection cleans each slot
once, and the list holds exactly the slots added and not removed by any route. */
module SignalSlots {
  import opened Wrappers
  import opened SlotTable
  import opened SignalProtocol
  import opened SignalMemory

  /** The slot whose cleanup an activity has yet to run. */
  function PendingSlot(x: Activity): Option<SlotId> {
    if x.Writing? && x.op.CleanUp? && !Ended(x.phase) then Some(x.op.slot) else None
  }

  /** The slot an activity has yet to add. */
  function AddingSlot(x: Activity): Option<SlotId> {
    if x.Writing? && x.op.Add? && !Ended(x.phase) then Some(x.op.slot) else None
  }

  predicate SamePending(x: Activity, y: Activity) { PendingSlot(x).Some? && PendingSlot(x) == PendingSlot(y) }

  predicate SameAdding(x: Activity, y: Activity) { AddingSlot(x).Some? && AddingSlot(x) == AddingSlot(y) }

  function CurTable(s: State): Table { Table(ListOf(s, s.cur), s.index) }

  ghost predicate TableInv(s: State) {
    s.index.Keys == s.group.Keys && WellFormed(CurTable(s), s.group)
  }

  /** What is on the list: everything added, less what was removed in bulk or cleaned. */
  ghost predicate LedgerInv(s: State) {
    && s.added <= s.group.Keys && s.disconnected <= s.added && s.bulk <= s.added
    && Elems(s.cleaned) <= s.disconnected && Distinct(s.cleaned)
    && Slots(ListOf(s, s.cur)) == s.added - s.bulk - Elems(s.cleaned)
  }

  /** A disconnected slot has been cleaned, or exactly one activity has yet to clean it. */
  ghost predicate PendingInv(s: State) {
    && (forall a :: a in s.acts && PendingSlot(s.acts[a]).Some? ==>
          PendingSlot(s.acts[a]).value in s.disconnected && PendingSlot(s.acts[a]).value !in s.cleaned)
    && (forall a, b :: a in s.acts && b in s.acts && SamePending(s.acts[a], s.acts[b]) ==> a == b)
    && (forall slot :: slot in s.disconnected && slot !in s.cleaned ==>
          exists a :: a in s.acts && PendingSlot(s.acts[a]) == Some(slot))
  }

  /** A slot is added once, by the connect call that made it. */
  ghost predicate AddingInv(s: State) {
    && (forall a :: a in s.acts && AddingSlot(s.acts[a]).Some? ==>
          AddingSlot(s.acts[a]).value in s.group && AddingSlot(s.acts[a]).value !in s.added)
    && (forall a, b :: a in s.acts && b in s.acts && SameAdding(s.acts[a], s.acts[b]) ==> a == b)
  }

  /** Snapshots are lists of slots that had been added. */
  ghost predicate ViewOk(s: State, x: Activity) {
    ViewOf(x).Some? ==> Shaped(ViewOf(x).value.snap, s.group) && Slots(ViewOf(x).value.snap) <= s.added
  }

  ghost predicate ViewsInv(s: State) {
    forall a :: a in s.acts ==> ViewOk(s, s.acts[a])
  }

  ghost predicate SlotsInv(s: State) {
    TableInv(s) && LedgerInv(s) && PendingInv(s) && AddingInv(s) && ViewsInv(s)
  }

  // ----- transitions that leave the list and the ledger alone

  ghost predicate SameLedger(s: State, t: State) {
    && ListOf(t, t.cur) == ListOf(s, s.cur) && t.group == s.group && t.index == s.index
    && t.added == s.added && t.bulk == s.bulk && t.cleaned == s.cleaned && t.disconnected == s.disconnected
  }

  /** Activities other than a are the same in s and t. */
  ghost predicate SameOthers(s: State, t: State, a: ActivityId) {
    && (forall b :: b in s.acts && b != a ==> b in t.acts && t.acts[b] == s.acts[b])
    && (forall b :: b in t.acts && b != a ==> b in s.acts)
  }

  function PendingAt(s: State, a: ActivityId): Option<SlotId> {
    if a in s.acts then PendingSlot(s.acts[a]) else None
  }

  function AddingAt(s: State, a: ActivityId): Option<SlotId> {
    if a in s.acts then AddingSlot(s.acts[a]) else None
  }

  lemma PendingKept(s: State, t: State, a: ActivityId)
    requires PendingInv(s) && SameOthers(s, t, a) && t.disconnected == s.disconnected && t.cleaned == s.cleaned
    requires PendingAt(t, a) == PendingAt(s, a)
    ensures PendingInv(t)
  {
    hide PendingSlot;
    forall b | b in t.acts && PendingSlot(t.acts[b]).Some?
      ensures b in s.acts && PendingSlot(s.acts[b]) == PendingSlot(t.acts[b])
    {
    }
    forall slot | slot in t.disconnected && slot !in t.cleaned
      ensures exists b :: b in t.acts && PendingSlot(t.acts[b]) == Some(slot)
    {
      var b :| b in s.acts && PendingSlot(s.acts[b]) == Some(slot);
      assert b in t.acts && PendingSlot(t.acts[b]) == Some(slot);
    }
  }

  lemma AddingKept(s: State, t: State, a: ActivityId)
    requires AddingInv(s) && SameOthers(s, t, a) && t.added == s.added
    requires forall slot :: slot in s.group ==> slot in t.group
    requires AddingAt(t, a) == AddingAt(s, a)
    ensures AddingInv(t)
  {
    hide AddingSlot;
    forall b | b in t.acts && AddingSlot(t.acts[b]).Some?
      ensures b in s.acts && AddingSlot(s.acts[b]) == AddingSlot(t.acts[b])
    {
    }
  }

  lemma ViewsKept(s: State, t: State, a: ActivityId)
    requires ViewsInv(s) && SameOthers(s, t, a) && t.group == s.group && s.added <= t.added
    requires a in t.acts ==> ViewOk(t, t.acts[a])
    ensures ViewsInv(t)
  {
    hide ViewOf, Shaped, Slots;
    forall b | b in t.acts ensures ViewOk(t, t.acts[b]) {
      if b != a { assert ViewOk(s, s.acts[b]); }
    }
  }

  lemma QuietSlots(s: State, t: State, a: ActivityId)
    requires SlotsInv(s) && SameLedger(s, t) && SameOthers(s, t, a)
    requires PendingAt(t, a) == PendingAt(s, a) && AddingAt(t, a) == AddingAt(s, a)
    requires a in t.acts ==> ViewOk(t, t.acts[a])
    ensures SlotsInv(t)
  {
    hide PendingInv, AddingInv, ViewsInv, ViewOk, PendingAt, AddingAt, WellFormed, Slots, Distinct, ListOf;
    PendingKept(s, t, a);
    AddingKept(s, t, a);
    ViewsKept(s, t, a);
  }

  // ----- disconnection, first phase

  lemma ExchangeSlots(s: State, slot: SlotId)
    requires SlotsInv(s) && slot in s.added && forall a :: a in s.acts ==> a < s.nextAct
    ensures SlotsInv(Exchange(s, slot))
  {
    hide PendingInv, AddingInv, ViewsInv, WellFormed, Slots, Distinct;
    if slot !in s.disconnected {
      var a, y := s.nextAct, Writing(CleanUp(slot), Waiting);
      var t := Exchange(s, slot);
      assert t.acts == s.acts[a := y];
      PendingAdded(s, t, a, slot);
      AddingKept(s, t, a);
      ViewsKept(s, t, a);
    }
  }

  lemma PendingAdded(s: State, t: State, a: ActivityId, slot: SlotId)
    requires PendingInv(s) && a !in s.acts && t.acts == s.acts[a := Writing(CleanUp(slot), Waiting)]
    requires slot !in s.disconnected && t.disconnected == s.disconnected + {slot}
    requires t.cleaned == s.cleaned && Elems(s.cleaned) <= s.disconnected
    ensures PendingInv(t)
  {
    var y := Writing(CleanUp(slot), Waiting);
    assert PendingSlot(y) == Some(slot);
    hide PendingSlot;
    assert slot !in s.cleaned by { assert slot in s.cleaned ==> slot in Elems(s.cleaned); }
    forall r | r in t.disconnected && r !in t.cleaned
      ensures exists b :: b in t.acts && PendingSlot(t.acts[b]) == Some(r)
    {
      if r == slot {
        assert PendingSlot(t.acts[a]) == Some(r);
      } else {
        var b :| b in s.acts && PendingSlot(s.acts[b]) == Some(r);
        assert PendingSlot(t.acts[b]) == Some(r);
      }
    }
  }

  // ----- connecting

  lemma ConnectSlots(s: State, slot: SlotId, gid: int, obj: Option<ObjectId>)
    requires SlotsInv(s) && slot !in s.group && forall a :: a in s.acts ==> a < s.nextAct
    ensures SlotsInv(Connected(s, slot, gid, obj))
  {
    hide PendingInv, AddingInv, ViewsInv, TableInv, Slots, Distinct, Connected;
    var a, t := s.nextAct, Connected(s, slot, gid, obj);
    ConnectedFields(s, slot, gid, obj);
    assert slot !in s.added by { assert slot in s.added ==> slot in s.group.Keys; }
    PendingKept(s, t, a);
    AddingAdded(s, t, a, slot);
    ViewsGrow(s, t, a, slot, gid);
    ConnectTable(s, t, slot, gid);
  }

  lemma ConnectedFields(s: State, slot: SlotId, gid: int, obj: Option<ObjectId>)
    ensures var t := Connected(s, slot, gid, obj);
            && t == s.(group := t.group, index := t.index, tracks := t.tracks, acts := t.acts, nextAct := t.nextAct)
            && t.acts == s.acts[s.nextAct := Writing(Add(slot), Waiting)] && t.nextAct == s.nextAct + 1
            && t.group == s.group[slot := gid] && t.index == s.index[slot := 0]
            && t.tracks.Keys <= s.tracks.Keys + {slot}
            && (forall r :: r != slot ==> (r in t.tracks <==> r in s.tracks))
            && (forall r :: r != slot && r in s.tracks ==> t.tracks[r] == s.tracks[r])
  {
  }

  lemma ConnectTable(s: State, t: State, slot: SlotId, gid: int)
    requires TableInv(s) && slot !in s.group && ListOf(t, t.cur) == ListOf(s, s.cur)
    requires t.group == s.group[slot := gid] && t.index == s.index[slot := 0]
    ensures TableInv(t)
  {
    hide WellFormed, ListOf;
    WellFormedGrows(CurTable(s), s.group, slot, gid);
    assert t.index.Keys == t.group.Keys;
  }

  lemma AddingAdded(s: State, t: State, a: ActivityId, slot: SlotId)
    requires AddingInv(s) && a !in s.acts && t.acts == s.acts[a := Writing(Add(slot), Waiting)]
    requires slot !in s.group && slot !in s.added && t.added == s.added && t.group.Keys == s.group.Keys + {slot}
    ensures AddingInv(t)
  {
    var y := Writing(Add(slot), Waiting);
    assert AddingSlot(y) == Some(slot);
    hide AddingSlot;
    assert forall r :: r in t.group <==> r in t.group.Keys;
    assert forall r :: r in s.group <==> r in s.group.Keys;
  }

  lemma ViewsGrow(s: State, t: State, a: ActivityId, slot: SlotId, gid: int)
    requires ViewsInv(s) && slot !in s.group && t.group == s.group[slot := gid] && t.added == s.added
    requires SameOthers(s, t, a) && a in t.acts && ViewOf(t.acts[a]) == None
    ensures ViewsInv(t)
  {
    hide ViewOf, Slots, Ascending, Distinct;
    forall b | b in t.acts ensures ViewOk(t, t.acts[b]) {
      if b != a {
        assert ViewOk(s, s.acts[b]);
        if ViewOf(s.acts[b]).Some? { GroupedGrows(ViewOf(s.acts[b]).value.snap, s.group, slot, gid); }
      }
    }
  }

  // ----- the mutations

  lemma AddSlots(s: State, t: State, a: ActivityId, slot: SlotId)
    requires SlotsInv(s) && s.cur in s.heap && a in s.acts && s.acts[a] == Writing(Add(slot), Ready)
    requires slot in s.group && t == Put(Mutate(s, Add(slot)), a, Writing(Add(slot), Mutated))
    ensures SlotsInv(t)
  {
    hide PendingInv, AddingInv, ViewsInv, Slots, Distinct, WellFormed, AddSlot;
    AddingFacts(s, a, slot);
    AddSlotEffect(CurTable(s), slot, s.group[slot], s.group);
    AddSlotKeys(CurTable(s), slot, s.group[slot]);
    PendingKept(s, t, a);
    AddingDone(s, t, a, slot);
    ViewsKept(s, t, a);
  }

  lemma AddSlotKeys(t: Table, slot: SlotId, gid: int)
    ensures AddSlot(t, slot, gid).index.Keys == t.index.Keys + {slot}
  {
  }

  lemma AddingFacts(s: State, a: ActivityId, slot: SlotId)
    requires AddingInv(s) && a in s.acts && AddingSlot(s.acts[a]) == Some(slot)
    ensures slot in s.group && slot !in s.added
  {
  }

  lemma AddingDone(s: State, t: State, a: ActivityId, slot: SlotId)
    requires AddingInv(s) && a in s.acts && SameOthers(s, t, a) && AddingSlot(s.acts[a]) == Some(slot)
    requires a in t.acts && AddingSlot(t.acts[a]) == None && t.added == s.added + {slot} && t.group == s.group
    ensures AddingInv(t)
  {
    hide AddingSlot;
    forall b | b in t.acts && AddingSlot(t.acts[b]).Some? ensures AddingSlot(t.acts[b]).value !in t.added {
      assert b in s.acts && AddingSlot(s.acts[b]) == AddingSlot(t.acts[b]);
      assert SameAdding(s.acts[a], s.acts[b]) <==> AddingSlot(s.acts[b]) == Some(slot);
    }
  }

  lemma CleanSlots(s: State, t: State, a: ActivityId, slot: SlotId)
    requires SlotsInv(s) && s.cur in s.heap && a in s.acts && s.acts[a] == Writing(CleanUp(slot), Ready)
    requires slot in s.group && slot in s.index
    requires t == Put(Mutate(s, CleanUp(slot)), a, Writing(CleanUp(slot), Mutated))
    ensures SlotsInv(t)
  {
    hide PendingInv, AddingInv, ViewsInv, Slots, Distinct, WellFormed, Clean;
    PendingFacts(s, a, slot);
    CleanEffect(CurTable(s), slot, s.group[slot], s.group);
    assert Elems(t.cleaned) == Elems(s.cleaned) + {slot};
    DistinctSnoc(s.cleaned, slot);
    PendingDone(s, t, a, slot);
    AddingKept(s, t, a);
    ViewsKept(s, t, a);
  }

  lemma DistinctSnoc<T>(s: seq<T>, x: T)
    requires Distinct(s) && x !in s
    ensures Distinct(s + [x])
  {
  }

  lemma PendingFacts(s: State, a: ActivityId, slot: SlotId)
    requires PendingInv(s) && a in s.acts && PendingSlot(s.acts[a]) == Some(slot)
    ensures slot in s.disconnected && slot !in s.cleaned
  {
  }

  lemma PendingDone(s: State, t: State, a: ActivityId, slot: SlotId)
    requires PendingInv(s) && a in s.acts && SameOthers(s, t, a) && PendingSlot(s.acts[a]) == Some(slot)
    requires a in t.acts && PendingSlot(t.acts[a]) == None && t.disconnected == s.disconnected
    requires t.cleaned == s.cleaned + [slot]
    ensures PendingInv(t)
  {
    hide PendingSlot;
    forall b | b in t.acts && PendingSlot(t.acts[b]).Some?
      ensures PendingSlot(t.acts[b]).value !in t.cleaned && PendingSlot(t.acts[b]).value in t.disconnected
    {
      assert b in s.acts && PendingSlot(s.acts[b]) == PendingSlot(t.acts[b]);
      assert SamePending(s.acts[a], s.acts[b]) <==> PendingSlot(s.acts[b]) == Some(slot);
    }
    forall r | r in t.disconnected && r !in t.cleaned
      ensures exists b :: b in t.acts && PendingSlot(t.acts[b]) == Some(r)
    {
      var b :| b in s.acts && PendingSlot(s.acts[b]) == Some(r);
      assert b in t.acts && PendingSlot(t.acts[b]) == Some(r);
    }
  }

  /** disconnect_if, disconnect(gid) and clear. */
  lemma BulkSlots(s: State, t: State, a: ActivityId, op: Op, u: Table, phase: WritePhase)
    requires SlotsInv(s) && s.cur in s.heap && a in s.acts && s.acts[a] == Writing(op, Ready) && IsBulk(op)
    requires WellFormed(u, s.group) && u.index.Keys == s.index.Keys && Slots(u.groups) <= Slots(ListOf(s, s.cur))
    requires t == Put(Bulk(s, u), a, Writing(op, phase))
    ensures SlotsInv(t)
  {
    hide PendingInv, AddingInv, ViewsInv, Slots, Distinct, WellFormed, Flatten;
    FlattenElems(ListOf(s, s.cur));
    FlattenElems(u.groups);
    PendingKept(s, t, a);
    AddingKept(s, t, a);
    ViewsKept(s, t, a);
  }

  lemma MutateSlots(s: State, a: ActivityId, op: Op)
    requires SlotsInv(s) && s.cur in s.heap && a in s.acts && s.acts[a] == Writing(op, Ready)
    requires op.Add? || op.CleanUp? ==> op.slot in s.group && op.slot in s.index
    ensures SlotsInv(Put(Mutate(s, op), a, Writing(op, AfterMutation(s, Mutate(s, op), op))))
  {
    hide PendingInv, AddingInv, ViewsInv, LedgerInv, Slots, WellFormed;
    hide AddSlot, Clean, DisconnectIf, DisconnectGroup, Bulk, Store, Dropped;
    var phase := AfterMutation(s, Mutate(s, op), op);
    var t, c := Put(Mutate(s, op), a, Writing(op, phase)), CurTable(s);
    match op
    case Add(slot) => AddSlots(s, t, a, slot);
    case CleanUp(slot) => CleanSlots(s, t, a, slot);
    case RemoveIf(matching) =>
      DisconnectIfEffect(c, matching, s.group);
      BulkSlots(s, t, a, op, DisconnectIf(c, matching).0, phase);
    case RemoveGroup(gid) =>
      DisconnectGroupEffect(c, gid, s.group);
      BulkSlots(s, t, a, op, DisconnectGroup(c, gid).0, phase);
    case RemoveAll =>
      ClearEffect(c, s.group);
      BulkSlots(s, t, a, op, Clear(c), phase);
  }
}
