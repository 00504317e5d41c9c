/** The invariant of every run: memory, slot list, and the progress of each reader through its snapshot. */
module SignalInvariant {
  import opened Wrappers
  import opened SlotTable
  import opened SignalProtocol
  import opened SignalMemory
  import opened SignalSlots

  // ----- readers' progress

  function LogSlots(log: seq<Outcome>): (r: seq<SlotId>)
    ensures |r| == |log|
  {
    seq(|log|, k requires 0 <= k < |log| => log[k].slot)
  }

  /** The slots before position (g, i) in emission order. */
  function Before(snap: seq<Group>, g: nat, i: nat): seq<SlotId>
    requires g <= |snap| && (g < |snap| ==> i <= |snap[g].slts|)
  {
    Flatten(snap[..g]) + if g < |snap| then snap[g].slts[..i] else []
  }

  /** A reader's cursor is inside its snapshot; an emission has logged every slot before the cursor and, in
  a turn, visits the slot at the cursor; slot_count has added up the groups before the cursor. */
  ghost predicate CursorOk(x: Activity) {
    && (x.Emitting? ==>
          && x.g <= |x.view.snap| && (x.g < |x.view.snap| ==> x.i <= |x.view.snap[x.g].slts|)
          && LogSlots(x.log) == Before(x.view.snap, x.g, x.i)
          && (x.turn.Visit? ==>
                x.g < |x.view.snap| && x.i < |x.view.snap[x.g].slts| && x.turn.slot == x.view.snap[x.g].slts[x.i]))
    && (x.Counting? ==> x.g <= |x.view.snap| && x.sum == Total(x.view.snap[..x.g]))
  }

  ghost predicate CursorsInv(s: State) {
    forall a :: a in s.acts ==> CursorOk(s.acts[a])
  }

  lemma BeforeNextGroup(snap: seq<Group>, g: nat, i: nat)
    requires g < |snap| && i == |snap[g].slts|
    ensures Before(snap, g + 1, 0) == Before(snap, g, i)
    ensures Total(snap[..g + 1]) == Total(snap[..g]) + i
  {
    assert snap[..g + 1][..g] == snap[..g] && snap[..g + 1][g] == snap[g];
    assert snap[g].slts[..i] == snap[g].slts;
  }

  lemma BeforeNextSlot(snap: seq<Group>, g: nat, i: nat)
    requires g < |snap| && i < |snap[g].slts|
    ensures Before(snap, g, i + 1) == Before(snap, g, i) + [snap[g].slts[i]]
  {
    hide Flatten;
  }

  lemma EndTurnOk(x: Activity, called: bool)
    requires CursorOk(x) && x.Emitting? && x.turn.Visit?
    ensures CursorOk(EndTurn(x, x.turn.slot, called))
  {
    hide Before;
    BeforeNextSlot(x.view.snap, x.g, x.i);
    var y := EndTurn(x, x.turn.slot, called);
    assert LogSlots(y.log) == LogSlots(x.log) + [x.turn.slot];
  }

  lemma TurnOk(x: Activity, check: Check)
    requires CursorOk(x) && x.Emitting? && x.turn.Visit?
    ensures CursorOk(x.(turn := Visit(x.turn.slot, check)))
  {
    hide Before, LogSlots;
  }

  /** One action inside a turn goes on to another check of the same slot, or ends the turn. */
  lemma TurnShape(s: State, x: Activity, slot: SlotId, check: Check)
    requires x.Emitting?
    ensures var y := NextTurn(s, x, slot, check);
            || y == EndTurn(x, slot, check == Calling)
            || (y.Emitting? && y.turn.Visit? && y == x.(turn := Visit(slot, y.turn.check)))
  {
    hide EndTurn;
  }

  lemma VisitCursor(s: State, a: ActivityId)
    requires CursorsInv(s) && a in s.acts && s.acts[a].Emitting? && s.acts[a].turn.Visit? && a < s.nextAct
    ensures CursorsInv(VisitStep(s, a, s.acts[a], s.acts[a].turn.slot, s.acts[a].turn.check))
  {
    hide CursorOk, NextTurn, EndTurn;
    var x := s.acts[a];
    var slot, check := x.turn.slot, x.turn.check;
    var y := NextTurn(s, x, slot, check);
    TurnShape(s, x, slot, check);
    EndTurnOk(x, check == Calling);
    if y != EndTurn(x, slot, check == Calling) { TurnOk(x, y.turn.check); }
    CursorsJoin(s, VisitStep(s, a, x, slot, check), a);
  }

  lemma FetchOk(x: Activity)
    requires CursorOk(x) && x.Emitting? && x.turn.Fetch? && x.g < |x.view.snap|
    ensures x.i == |x.view.snap[x.g].slts| ==> CursorOk(x.(g := x.g + 1, i := 0))
    ensures x.i < |x.view.snap[x.g].slts| ==> CursorOk(x.(turn := Visit(x.view.snap[x.g].slts[x.i], CheckConnected)))
  {
    hide Before, LogSlots;
    if x.i == |x.view.snap[x.g].slts| { BeforeNextGroup(x.view.snap, x.g, x.i); }
  }

  lemma CountOk(x: Activity)
    requires CursorOk(x) && x.Counting? && x.g < |x.view.snap|
    ensures CursorOk(x.(g := x.g + 1, sum := x.sum + |x.view.snap[x.g].slts|))
  {
    hide Before, LogSlots, Total;
    BeforeNextGroup(x.view.snap, x.g, |x.view.snap[x.g].slts|);
  }

  lemma CursorBounds(x: Activity)
    requires CursorOk(x) && x.Emitting?
    ensures x.g <= |x.view.snap| && (x.g < |x.view.snap| ==> x.i <= |x.view.snap[x.g].slts|)
  {
  }

  lemma FetchCursor(s: State, a: ActivityId)
    requires CursorsInv(s) && a in s.acts && s.acts[a].Emitting? && s.acts[a].turn.Fetch?
    requires s.acts[a].view.p in s.heap && s.heap[s.acts[a].view.p].groups == s.acts[a].view.snap
    ensures CursorsInv(EmitStep(s, a, s.acts[a]))
  {
    hide CursorOk, Release;
    var x := s.acts[a];
    CursorBounds(x);
    if x.g < |x.view.snap| {
      FetchOk(x);
      CursorsJoin(s, EmitStep(s, a, x), a);
    } else {
      ReleaseCursor(s, a, x.view.p);
    }
  }

  lemma ReleaseCursor(s: State, a: ActivityId, p: PayloadId)
    requires CursorsInv(s) && a in s.acts && p in s.heap
    ensures CursorsInv(Release(s, a, p))
  {
    hide CursorOk, Release;
    FreeingCursor(p);
    ReleaseActs(s, a, p);
    CursorsJoin(s, Release(s, a, p), a);
  }

  lemma ReleaseActs(s: State, a: ActivityId, p: PayloadId)
    requires a in s.acts && p in s.heap
    ensures var t := Release(s, a, p);
            t.acts ==
              if s.heap[p].count == 0 then s.acts
              else if s.heap[p].count == 1 then s.acts[a := Freeing(p)] else s.acts - {a}
  {
    if s.heap[p].count == 0 {
    } else if s.heap[p].count == 1 {
    } else {
    }
  }

  lemma FreeingCursor(p: PayloadId)
    ensures CursorOk(Freeing(p))
  {
  }

  lemma CountCursor(s: State, a: ActivityId)
    requires CursorsInv(s) && a in s.acts && s.acts[a].Counting?
    requires s.acts[a].view.p in s.heap && s.heap[s.acts[a].view.p].groups == s.acts[a].view.snap
    ensures CursorsInv(CountStep(s, a, s.acts[a]))
  {
    hide CursorOk, Release;
    var x := s.acts[a];
    if x.g < |x.view.snap| {
      CountOk(x);
      CursorsJoin(s, CountStep(s, a, x), a);
    } else {
      ReleaseCursor(s, a, x.view.p);
    }
  }

  /** A new reader is at the start of its snapshot. */
  lemma StartCursor(v: View)
    ensures CursorOk(Emitting(v, 0, 0, Fetch, [])) && CursorOk(Counting(v, 0, 0))
  {
    assert v.snap[..0] == [];
  }

  lemma CursorsJoin(s: State, t: State, a: ActivityId)
    requires CursorsInv(s) && (a in t.acts ==> CursorOk(t.acts[a]))
    requires forall b :: b in t.acts && b != a ==> (b in s.acts && t.acts[b] == s.acts[b]) || t.acts[b].Writing?
    ensures CursorsInv(t)
  {
    hide Before, LogSlots;
    forall b | b in t.acts ensures CursorOk(t.acts[b]) {
      if b != a && b in s.acts && t.acts[b] == s.acts[b] { assert CursorOk(s.acts[b]); }
    }
  }

  /** Actions that neither read a list nor end a turn. */
  lemma OtherCursor(s: State, a: ActivityId, x: Activity)
    requires CursorsInv(s) && a in s.acts && s.acts[a] == x && !x.Writing? && !x.Emitting? && !x.Counting?
    requires var t := Touched(s, x); t.Some? ==> t.value in s.heap
    ensures CursorsInv(ReadStep(s, a, x))
  {
    if x.Leaving? { StartCursor(x.view); }
    var t := ReadStep(s, a, x);
    assert a in t.acts ==> CursorOk(t.acts[a]) by {
      hide Before, LogSlots, Total;
    }
    hide CursorOk, CursorsInv;
    CursorsJoin(s, t, a);
  }

  lemma WriteCursor(s: State, a: ActivityId, op: Op, phase: WritePhase)
    requires CursorsInv(s) && a in s.acts && s.acts[a] == Writing(op, phase)
    requires var t := Touched(s, Writing(op, phase)); t.Some? ==> t.value in s.heap
    ensures CursorsInv(WriteStep(s, a, op, phase))
  {
    hide CursorOk, CursorsInv, WriteStep;
    var t := WriteStep(s, a, op, phase);
    WriterFrame(s, a, op, phase);
    WriterCursor(op, if a in t.acts then t.acts[a].phase else phase);
    CursorsJoin(s, t, a);
  }

  /** A writer's action concerns no other activity. */
  lemma WriterFrame(s: State, a: ActivityId, op: Op, phase: WritePhase)
    requires a in s.acts && s.acts[a] == Writing(op, phase)
    requires var t := Touched(s, Writing(op, phase)); t.Some? ==> t.value in s.heap
    ensures var t := WriteStep(s, a, op, phase);
            SameOthers(s, t, a) && (a in t.acts ==> t.acts[a].Writing? && t.acts[a].op == op)
  {
    hide WriteStep;
    WriterActs(s, a, op, phase);
  }

  predicate Faults(s: State, x: Activity) {
    UnknownSlot(s, x) || (x.Writing? && x.phase.Swapped? && CountOf(s, x.phase.replaced) == 0)
  }

  lemma WriterActs(s: State, a: ActivityId, op: Op, phase: WritePhase)
    requires a in s.acts && s.acts[a] == Writing(op, phase)
    requires var t := Touched(s, Writing(op, phase)); t.Some? ==> t.value in s.heap
    ensures var t := WriteStep(s, a, op, phase);
            if Faults(s, Writing(op, phase)) then t.acts == s.acts
            else if phase.Returning? then t.acts == s.acts - {a}
            else a in t.acts && t.acts[a].Writing? && t.acts[a].op == op && t.acts == s.acts[a := t.acts[a]]
  {
    hide Mutate, Dropped;
    if phase.Ready? && !UnknownSlot(s, s.acts[a]) { MutateFrame(s, op); }
  }

  lemma WriterCursor(op: Op, phase: WritePhase)
    ensures CursorOk(Writing(op, phase))
  {
  }

  // ----- the slot invariant, transition by transition

  /** A writer's actions other than the mutation leave the list as it is. */
  lemma WriterQuiet(s: State, a: ActivityId, op: Op, phase: WritePhase)
    requires MemoryInv(s) && a in s.acts && s.acts[a] == Writing(op, phase) && !phase.Ready?
    requires var t := Touched(s, Writing(op, phase)); t.Some? ==> t.value in s.heap
    ensures SameLedger(s, WriteStep(s, a, op, phase))
  {
    hide MemoryInv, ActOk, Mutate, Dropped;
    MemoryParts(s, a);
    PhaseFacts(s, op, phase);
    match phase
    case Duplicating => NextIsNew(s);
    case Duplicated(_) =>
    case Swapped(p) => RecountKeepsLists(s, p, if s.heap[p].count == 0 then 0 else s.heap[p].count - 1);
    case Discarding(_) =>
    case _ =>
  }

  lemma PhaseFacts(s: State, op: Op, phase: WritePhase)
    requires ActOk(s, Writing(op, phase))
    ensures phase.Duplicated? ==> ListOf(s, phase.copy) == ListOf(s, s.cur)
    ensures phase.Discarding? ==> phase.replaced != s.cur
  {
  }

  lemma NextIsNew(s: State)
    requires MemoryInv(s)
    ensures s.nextPayload !in s.heap
  {
    hide Counted, DoomedOnce, Exclusive, Distinct, ActsOk;
  }

  lemma WriterPhase(s: State, a: ActivityId, op: Op, phase: WritePhase)
    requires a in s.acts && s.acts[a] == Writing(op, phase) && !phase.Ready?
    requires var t := Touched(s, Writing(op, phase)); t.Some? ==> t.value in s.heap
    ensures var t := WriteStep(s, a, op, phase);
            if phase.Returning? then a !in t.acts
            else a in t.acts && t.acts[a].Writing? && (Ended(t.acts[a].phase) <==> Ended(phase))
  {
    hide Mutate, Dropped;
  }

  lemma WriteSlots(s: State, a: ActivityId, op: Op, phase: WritePhase)
    requires MemoryInv(s) && SlotsInv(s) && a in s.acts && s.acts[a] == Writing(op, phase)
    requires var t := Touched(s, Writing(op, phase)); t.Some? ==> t.value in s.heap
    requires !UnknownSlot(s, s.acts[a])
    ensures SlotsInv(WriteStep(s, a, op, phase))
  {
    hide MemoryInv, SlotsInv, Mutate, SameLedger, SameOthers;
    if phase.Ready? {
      MutateSlots(s, a, op);
    } else {
      hide WriteStep;
      WriterQuiet(s, a, op, phase);
      WriterPhase(s, a, op, phase);
      WriterFrame(s, a, op, phase);
      QuietSlots(s, WriteStep(s, a, op, phase), a);
    }
  }

  /** A writer only names a slot that exists. */
  lemma KnownSlot(s: State, a: ActivityId)
    requires SlotsInv(s) && a in s.acts
    ensures !UnknownSlot(s, s.acts[a])
  {
    hide WellFormed, Slots, ViewsInv, Distinct;
    var x := s.acts[a];
    if x.Writing? && x.phase.Ready? && x.op.CleanUp? {
      PendingFacts(s, a, x.op.slot);
      assert x.op.slot in s.group.Keys;
    } else if x.Writing? && x.phase.Ready? && x.op.Add? {
      AddingFacts(s, a, x.op.slot);
    }
    assert forall slot :: slot in s.index <==> slot in s.index.Keys;
  }

  /** A reader neither has cleanup nor an addition to do. */
  lemma ReaderIdle(x: Activity)
    requires !x.Writing?
    ensures PendingSlot(x) == None && AddingSlot(x) == None
  {
  }

  /** A new snapshot is the current list. */
  lemma SnapshotOk(s: State)
    requires SlotsInv(s) && s.cur in s.heap
    ensures Shaped(s.heap[s.cur].groups, s.group) && Slots(s.heap[s.cur].groups) <= s.added
  {
    hide PendingInv, AddingInv, ViewsInv, Slots, Shaped, Distinct, WellFormed;
    WellFormedIsShaped(CurTable(s), s.group);
  }

  /** Releasing a reference changes a count. */
  lemma ReleaseQuiet(s: State, a: ActivityId, p: PayloadId)
    requires a in s.acts && p in s.heap && !s.acts[a].Writing?
    ensures SameLedger(s, Release(s, a, p)) && SameOthers(s, Release(s, a, p), a)
    ensures PlainAt(Release(s, a, p), a, s.acts[a])
  {
    hide Release, SameLedger;
    ReleaseActs(s, a, p);
    ReleaseLedger(s, a, p);
  }

  lemma ReleaseLedger(s: State, a: ActivityId, p: PayloadId)
    requires p in s.heap
    ensures SameLedger(s, Release(s, a, p))
  {
    hide ListOf;
    if s.heap[p].count == 0 {
      SameHeap(s, s.(fault := true));
    } else {
      var s1 := SetPayload(s, p, s.heap[p].(count := s.heap[p].count - 1));
      RecountKeepsLists(s, p, s.heap[p].count - 1);
      if s.heap[p].count == 1 {
        SameHeap(s1, Put(s1, a, Freeing(p)));
      } else {
        SameHeap(s1, Finish(s1, a));
      }
    }
  }

  lemma SameHeap(s: State, t: State)
    requires t.heap == s.heap && t.cur == s.cur
    ensures ListOf(t, t.cur) == ListOf(s, s.cur)
  {
  }

  lemma RecountKeepsLists(s: State, p: PayloadId, c: nat)
    requires p in s.heap
    ensures var t := SetPayload(s, p, s.heap[p].(count := c)); ListOf(t, t.cur) == ListOf(s, s.cur)
  {
  }

  /** After its action the activity is gone, or a reader with no view, the same view, or the current list. */
  ghost predicate PlainAt(t: State, a: ActivityId, x: Activity) {
    a in t.acts ==>
      !t.acts[a].Writing? &&
      (ViewOf(t.acts[a]) in {None, ViewOf(x)} || ViewOf(t.acts[a]) == Some(View(t.cur, ListOf(t, t.cur))))
  }

  lemma EnterQuiet(s: State, a: ActivityId, x: Activity)
    requires a in s.acts && s.acts[a] == x && (x.Entering? || x.Asking? || x.Leaving? || x.Referencing?)
    requires s.cur in s.heap
    ensures SameLedger(s, ReadStep(s, a, x)) && SameOthers(s, ReadStep(s, a, x), a) && PlainAt(ReadStep(s, a, x), a, x)
  {
  }

  lemma FreeingQuiet(s: State, a: ActivityId, p: PayloadId)
    requires MemoryInv(s) && a in s.acts && s.acts[a] == Freeing(p)
    ensures var t := Finish(Delete(s, p), a); SameLedger(s, t) && SameOthers(s, t, a) && PlainAt(t, a, s.acts[a])
  {
    hide MemoryInv;
    DoomedAlone(s, a, p);
  }

  lemma ReadSlots(s: State, a: ActivityId, x: Activity)
    requires MemoryInv(s) && SlotsInv(s) && a in s.acts && s.acts[a] == x && !x.Writing?
    requires !(x.Emitting? && x.turn.Visit?)
    requires var t := Touched(s, x); t.Some? ==> t.value in s.heap
    ensures SlotsInv(ReadStep(s, a, x))
  {
    hide MemoryInv, SlotsInv, SameLedger, SameOthers, PlainAt, Release;
    MemoryParts(s, a);
    match x
    case Emitting(v, g, i, _, _) =>
      if g >= |s.heap[v.p].groups| {
        ReleaseQuiet(s, a, v.p);
        ReaderSlots(s, ReadStep(s, a, x), a);
      } else {
        CursorQuiet(s, a, ReadStep(s, a, x).acts[a]);
        ReaderSlots(s, ReadStep(s, a, x), a);
      }
    case Counting(v, g, _) =>
      if g >= |s.heap[v.p].groups| {
        ReleaseQuiet(s, a, v.p);
        ReaderSlots(s, ReadStep(s, a, x), a);
      } else {
        CursorQuiet(s, a, ReadStep(s, a, x).acts[a]);
        ReaderSlots(s, ReadStep(s, a, x), a);
      }
    case Freeing(p) =>
      FreeingQuiet(s, a, p);
      ReaderSlots(s, ReadStep(s, a, x), a);
    case _ =>
      EnterQuiet(s, a, x);
      ReaderSlots(s, ReadStep(s, a, x), a);
  }

  lemma CursorQuiet(s: State, a: ActivityId, y: Activity)
    requires a in s.acts && !s.acts[a].Writing? && !y.Writing? && ViewOf(y) == ViewOf(s.acts[a])
    ensures SameLedger(s, Put(s, a, y)) && SameOthers(s, Put(s, a, y), a) && PlainAt(Put(s, a, y), a, s.acts[a])
  {
  }

  lemma ReaderSlots(s: State, t: State, a: ActivityId)
    requires MemoryInv(s) && SlotsInv(s) && a in s.acts && !s.acts[a].Writing?
    requires SameLedger(s, t) && SameOthers(s, t, a) && PlainAt(t, a, s.acts[a])
    ensures SlotsInv(t)
  {
    hide MemoryInv, SlotsInv, SameLedger, SameOthers, ViewOf, PendingSlot, AddingSlot, Slots, Shaped;
    MemoryParts(s, a);
    ReaderIdle(s.acts[a]);
    ViewIsOk(s, a);
    SnapshotOk(s);
    LedgerFields(s, t);
    if a in t.acts { ReaderIdle(t.acts[a]); }
    QuietSlots(s, t, a);
  }

  lemma LedgerFields(s: State, t: State)
    requires SameLedger(s, t)
    ensures t.added == s.added && t.group == s.group && ListOf(t, t.cur) == ListOf(s, s.cur)
  {
  }

  lemma ViewIsOk(s: State, a: ActivityId)
    requires SlotsInv(s) && a in s.acts
    ensures ViewOk(s, s.acts[a])
  {
    hide TableInv, LedgerInv, PendingInv, AddingInv, ViewOk;
  }

  /** A turn changes the ledger only by disconnecting a slot whose object is gone. */
  lemma VisitSlots(s: State, a: ActivityId)
    requires MemoryInv(s) && SlotsInv(s) && CursorsInv(s) && a in s.acts && s.acts[a].Emitting? && s.acts[a].turn.Visit?
    ensures SlotsInv(VisitStep(s, a, s.acts[a], s.acts[a].turn.slot, s.acts[a].turn.check))
  {
    hide SlotsInv, MemoryInv, Exchange, NextTurn, ViewOf, PendingSlot, AddingSlot, Slots, Shaped, CursorsInv;
    var x := s.acts[a];
    var slot, check := x.turn.slot, x.turn.check;
    var s1, y := if check.Expired? then Exchange(s, slot) else s, NextTurn(s, x, slot, check);
    FreshIds(s);
    if check.Expired? {
      ExchangeKeeps(s, slot);
      VisitedWasAdded(s, a);
      ExchangeSlots(s, slot);
    }
    TurnKeepsView(s, x, slot, check);
    ReaderFacts(x);
    ReaderFacts(y);
    ReaderIdle(x);
    ReaderIdle(y);
    ViewIsOk(s1, a);
    QuietSlots(s1, Put(s1, a, y), a);
  }

  lemma FreshIds(s: State)
    requires MemoryInv(s)
    ensures forall a :: a in s.acts ==> a < s.nextAct
  {
    hide Counted, DoomedOnce, Exclusive, Distinct, ActsOk;
  }

  /** The slot at an emission's cursor is one that was added. */
  lemma VisitedWasAdded(s: State, a: ActivityId)
    requires SlotsInv(s) && CursorsInv(s) && a in s.acts && s.acts[a].Emitting? && s.acts[a].turn.Visit?
    ensures s.acts[a].turn.slot in s.added
  {
    hide Before, LogSlots, SlotsInv, Shaped, Slots;
    var x := s.acts[a];
    assert CursorOk(x);
    ViewIsOk(s, a);
    InSlots(x.view.snap, x.g);
  }

  // ----- the invariant

  ghost predicate Inv(s: State) {
    MemoryInv(s) && SlotsInv(s) && CursorsInv(s) && PinsInv(s)
  }

  /** While a callback of a tracked slot runs, its object is alive. */
  ghost predicate PinsInv(s: State) {
    && s.tracks.Keys <= s.group.Keys
    && forall a, obj :: a in s.acts && Pins(s, s.acts[a], obj) ==> obj !in s.expired
  }

  lemma ActKeepsRest(s: State, a: ActivityId)
    requires Inv(s) && Enabled(s, Act(a))
    ensures SlotsInv(After(s, Act(a))) && CursorsInv(After(s, Act(a)))
  {
    hide MemoryInv, SlotsInv, CursorsInv, PinsInv, WriteStep, After, VisitStep, CountStep, Release, UnknownSlot;
    var x := s.acts[a];
    ActUnfolds(s, a);
    KnownSlot(s, a);
    MemoryParts(s, a);
    FreshIds(s);
    if x.Writing? {
      WriteSlots(s, a, x.op, x.phase);
      WriteCursor(s, a, x.op, x.phase);
    } else if x.Emitting? && x.turn.Visit? {
      VisitSlots(s, a);
      VisitCursor(s, a);
    } else {
      ReadSlots(s, a, x);
      ReadCursor(s, a, x);
    }
  }

  lemma ReadCursor(s: State, a: ActivityId, x: Activity)
    requires MemoryInv(s) && CursorsInv(s) && a in s.acts && s.acts[a] == x && !x.Writing?
    requires !(x.Emitting? && x.turn.Visit?)
    requires var t := Touched(s, x); t.Some? ==> t.value in s.heap
    ensures CursorsInv(ReadStep(s, a, x))
  {
    hide MemoryInv, CursorsInv, EmitStep, CountStep;
    MemoryParts(s, a);
    if x.Emitting? {
      FetchCursor(s, a);
    } else if x.Counting? {
      CountCursor(s, a);
    } else {
      OtherCursor(s, a, x);
    }
  }

  /** New activities are writers, or readers that have not started. */
  lemma SpawnKeepsRest(s: State, x: Activity)
    requires Inv(s) && PendingSlot(x) == None && AddingSlot(x) == None && (x.Writing? || x.Entering? || x.Asking?)
    ensures SlotsInv(Spawn(s, x)) && CursorsInv(Spawn(s, x))
  {
    hide MemoryInv, SlotsInv, CursorsInv, PinsInv, PendingSlot, AddingSlot;
    FreshIds(s);
    var t := Spawn(s, x);
    SameHeap(s, t);
    QuietSlots(s, t, s.nextAct);
    assert CursorOk(x);
    CursorsJoin(s, t, s.nextAct);
  }

  /** Fields the slot invariant does not mention. */
  lemma FlagsKeep(s: State, t: State)
    requires SlotsInv(s) && CursorsInv(s) && t.acts == s.acts && t.heap == s.heap && t.cur == s.cur
    requires t.group == s.group && t.index == s.index && t.disconnected == s.disconnected
    requires t.added == s.added && t.bulk == s.bulk && t.cleaned == s.cleaned
    ensures SlotsInv(t) && CursorsInv(t)
  {
    hide CursorOk, PendingSlot, AddingSlot, WellFormed, Slots, Distinct, ViewOf, Shaped;
    SameHeap(s, t);
    forall a | a in t.acts ensures ViewOk(t, t.acts[a]) { assert ViewOk(s, s.acts[a]); }
  }

  lemma CallKeepsRest(s: State, l: Label)
    requires Inv(s) && Enabled(s, l) && !l.Act?
    ensures SlotsInv(After(s, l)) && CursorsInv(After(s, l))
  {
    hide Inv, SlotsInv, CursorsInv, Effect, After;
    EffectKeepsRest(s, l);
    AfterIsEffect(s, l);
    FlagsKeep(Effect(s, l), After(s, l));
  }

  lemma EffectKeepsRest(s: State, l: Label)
    requires Inv(s) && Enabled(s, l) && !l.Act?
    ensures SlotsInv(Effect(s, l)) && CursorsInv(Effect(s, l))
  {
    hide MemoryInv, SlotsInv, CursorsInv, PinsInv, Connected;
    FreshIds(s);
    match l
    case CallEmit(_) => SpawnKeepsRest(s, Entering);
    case CallSlotCount(_) => SpawnKeepsRest(s, Asking(Count));
    case CallConnect(slot, gid, obj, _) =>
      ConnectSlots(s, slot, gid, obj);
      ConnectedFields(s, slot, gid, obj);
      WriterCursor(Add(slot), Waiting);
      CursorsJoin(s, Connected(s, slot, gid, obj), s.nextAct);
    case CallBulk(op, _) => SpawnKeepsRest(s, Writing(op, Waiting));
    case CallDisconnect(slot, _) =>
      ExchangeSlots(s, slot);
      WriterCursor(CleanUp(slot), Waiting);
      CursorsJoin(s, Exchange(s, slot), s.nextAct);
    case SetBlocked(_, _) => FlagsKeep(s, Effect(s, l));
    case BlockSignal(_) => FlagsKeep(s, Effect(s, l));
    case Expire(_) => FlagsKeep(s, Effect(s, l));
  }
}
