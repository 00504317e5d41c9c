/** The guarantees of the thread-safe signal, stated over arbitrary runs. */
module SignalTheorems {
  import opened Wrappers
  import opened SlotTable
  import opened SignalProtocol
  import opened SignalMemory
  import opened SignalSlots
  import opened SignalInvariant
  import opened SignalRuns

  // ----- copy on write

  /** In every state of every run: no access to deleted memory and no double deletion has happened; every
  count is the number of holders; and a reader's payload still has the contents it had when referenced. */
  lemma MemorySafety(states: seq<State>, labels: seq<Label>, k: nat)
    requires Run(states, labels) && k < |states|
    ensures var s := states[k];
            && !s.fault && Distinct(s.freed)
            && (forall p :: p in s.heap ==> s.heap[p].count == |Holders(s.acts, p)| + One(p == s.cur))
            && (forall a :: a in s.acts && ViewOf(s.acts[a]).Some? ==>
                  var v := ViewOf(s.acts[a]).value; v.p in s.heap && s.heap[v.p].groups == v.snap)
            && (forall p :: 0 <= p < s.nextPayload ==> (p in s.heap <==> p !in s.freed))
  {
    hide SlotsInv, CursorsInv, PinsInv, Run, Distinct, DoomedOnce, Exclusive, Holders, ViewOf, Held, Doomed;
    InvRun(states, labels, k);
    var s := states[k];
    forall p | p in s.heap ensures s.heap[p].count == |Holders(s.acts, p)| + One(p == s.cur) {
      assert CountOf(s, p) == HolderCount(s.acts, p) + One(p == s.cur);
    }
    forall a | a in s.acts && ViewOf(s.acts[a]).Some?
      ensures var v := ViewOf(s.acts[a]).value; v.p in s.heap && s.heap[v.p].groups == v.snap
    {
      assert ActOk(s, s.acts[a]);
      ViewsAreHeld(s.acts[a]);
    }
  }

  lemma ViewsAreHeld(x: Activity)
    ensures ViewOf(x).Some? ==> Held(x) == Some(ViewOf(x).value.p)
  {
  }

  /** A writer copies the list exactly when somebody else holds it; otherwise it changes the list in place. */
  lemma CopiedIffShared(states: seq<State>, labels: seq<Label>, k: nat, a: ActivityId, op: Op)
    requires Run(states, labels) && k < |labels| && labels[k] == Act(a)
    requires a in states[k].acts && states[k].acts[a] == Writing(op, Testing)
    ensures var t := states[k + 1];
            && a in t.acts
            && t.acts[a] == Writing(op, if Holders(states[k].acts, states[k].cur) == {} then Ready else Duplicating)
  {
    hide SlotsInv, CursorsInv, PinsInv, MemoryInv, Holders;
    var s := states[k];
    InvRun(states, labels, k);
    ActUnfolds(s, a);
    MemoryParts(s, a);
    MemorySafety(states, labels, k);
  }

  /** When no call is running, the current list is the only payload left, so nothing has leaked. */
  lemma NothingLeaks(states: seq<State>, labels: seq<Label>, k: nat)
    requires Run(states, labels) && k < |states| && states[k].acts == map[]
    ensures states[k].heap.Keys == {states[k].cur} && states[k].heap[states[k].cur].count == 1
  {
    hide SlotsInv, CursorsInv, PinsInv, Run, Distinct, Exclusive, Holders;
    InvRun(states, labels, k);
    var s := states[k];
    forall p | p in s.heap ensures p == s.cur && s.heap[p].count == 1 {
      assert CountOf(s, p) == HolderCount(s.acts, p) + One(p == s.cur);
      NoHolders(p);
    }
  }

  lemma NoHolders(p: PayloadId)
    ensures HolderCount(map[], p) == 0
  {
    assert Holders(map[], p) == {};
  }

  // ----- two-phase disconnection

  /** No activity has a cleanup left to do. */
  ghost predicate NoCleanupPending(s: State) {
    forall a :: a in s.acts ==> PendingSlot(s.acts[a]) == None
  }

  /** The list in every state of every run. */
  lemma ListIsLedger(states: seq<State>, labels: seq<Label>, k: nat)
    requires Run(states, labels) && k < |states|
    ensures var s := states[k];
            && s.cur in s.heap && WellFormed(Table(s.heap[s.cur].groups, s.index), s.group)
            && Distinct(s.cleaned)
            && Slots(s.heap[s.cur].groups) == s.added - s.bulk - Elems(s.cleaned)
            && (forall slot :: slot in Slots(s.heap[s.cur].groups) && slot in s.disconnected ==>
                  exists a :: a in s.acts && PendingSlot(s.acts[a]) == Some(slot))
            && (NoCleanupPending(s) ==> Slots(s.heap[s.cur].groups) == s.added - (s.bulk + s.disconnected))
  {
    hide CursorsInv, PinsInv, Run, Distinct, WellFormed, Slots, MemoryInv, PendingSlot, AddingInv, ViewsInv;
    InvRun(states, labels, k);
    var s := states[k];
    CurExists(s);
    if NoCleanupPending(s) {
      forall slot | slot in s.disconnected ensures slot in Elems(s.cleaned) {
        assert slot in s.cleaned;
      }
      assert Elems(s.cleaned) == s.disconnected;
    }
  }

  lemma CurExists(s: State)
    requires MemoryInv(s)
    ensures s.cur in s.heap
  {
    hide Counted, DoomedOnce, Exclusive, ActsOk, Distinct;
  }

  // ----- following one activity through a run

  /** A view does not change while its reader lives, and a reader that ended does not come back. */
  lemma {:induction false} ViewStable(states: seq<State>, labels: seq<Label>, j: nat, k: nat, a: ActivityId)
    requires Run(states, labels) && j <= k < |states|
    requires a in states[j].acts && ViewOf(states[j].acts[a]).Some?
    ensures a in states[k].acts ==>
              states[k].acts[a].Freeing? || ViewOf(states[k].acts[a]) == ViewOf(states[j].acts[a])
    ensures a < states[k].nextAct
    decreases k
  {
    hide Inv, After, Enabled, ViewOf, NextTurn;
    InvRun(states, labels, j);
    if j < k {
      ViewStable(states, labels, j, k - 1, a);
      InvRun(states, labels, k - 1);
      StepFollows(states[k - 1], labels[k - 1]);
    } else {
      KnownId(states[k], a);
    }
  }

  lemma KnownId(s: State, a: ActivityId)
    requires Inv(s) && a in s.acts
    ensures a < s.nextAct
  {
    hide MemoryInv, SlotsInv, CursorsInv, PinsInv;
    FreshIds(s);
  }

  /** The slots added and not yet taken off the list, by whatever route. */
  function Remaining(s: State): set<SlotId> { s.added - s.bulk - Elems(s.cleaned) }

  /** slot_count, however it is interleaved, returns the number of slots that had been added and not taken off
  the list at the moment it took its reference. */
  lemma SlotCountIsExact(states: seq<State>, labels: seq<Label>, j: nat, k: nat, a: ActivityId)
    requires Run(states, labels) && j < k < |states|
    requires a in states[j].acts && states[j].acts[a] == Referencing(Count) && labels[j] == Act(a)
    requires a in states[k].acts && states[k].acts[a].Counting?
    requires states[k].acts[a].g == |states[k].acts[a].view.snap|
    ensures states[k].acts[a].sum == |Remaining(states[j])|
  {
    hide Inv, Slots, Enabled, NoCleanupPending, Shaped, WellFormed;
    InvRun(states, labels, j);
    ReferenceTakesCurrent(states, labels, j, a);
    ListIsLedger(states, labels, j);
    ViewStable(states, labels, j + 1, k, a);
    CountedAll(states, labels, k, a);
  }

  /** With no cleanup pending then, that is all slots added, less those removed in bulk or disconnected. */
  lemma SlotCountWithoutCleanup(states: seq<State>, labels: seq<Label>, j: nat, k: nat, a: ActivityId)
    requires Run(states, labels) && j < k < |states| && NoCleanupPending(states[j])
    requires a in states[j].acts && states[j].acts[a] == Referencing(Count) && labels[j] == Act(a)
    requires a in states[k].acts && states[k].acts[a].Counting?
    requires states[k].acts[a].g == |states[k].acts[a].view.snap|
    ensures states[k].acts[a].sum == |states[j].added - (states[j].bulk + states[j].disconnected)|
  {
    hide Run, Slots, NoCleanupPending, WellFormed;
    SlotCountIsExact(states, labels, j, k, a);
    ListIsLedger(states, labels, j);
  }

  lemma ReferenceTakesCurrent(states: seq<State>, labels: seq<Label>, j: nat, a: ActivityId)
    requires Run(states, labels) && j < |labels| && Inv(states[j])
    requires a in states[j].acts && states[j].acts[a].Referencing? && labels[j] == Act(a)
    ensures a in states[j + 1].acts && states[j].cur in states[j].heap
    ensures ViewOf(states[j + 1].acts[a]) == Some(View(states[j].cur, states[j].heap[states[j].cur].groups))
  {
    hide MemoryInv, SlotsInv, CursorsInv, PinsInv;
    MemoryParts(states[j], a);
  }

  lemma CountedAll(states: seq<State>, labels: seq<Label>, k: nat, a: ActivityId)
    requires Run(states, labels) && k < |states| && a in states[k].acts && states[k].acts[a].Counting?
    requires states[k].acts[a].g == |states[k].acts[a].view.snap|
    ensures states[k].acts[a].sum == |Slots(states[k].acts[a].view.snap)|
    ensures ViewOf(states[k].acts[a]) == Some(states[k].acts[a].view)
  {
    hide MemoryInv, SlotsInv, PinsInv, Run, Slots, Before, Total, Shaped;
    InvRun(states, labels, k);
    var s := states[k];
    var x := s.acts[a];
    assert CursorOk(x);
    assert x.view.snap[..x.g] == x.view.snap;
    ViewIsOk(s, a);
    TotalIsCard(x.view.snap, s.group);
  }

  // ----- emissions

  /** An emission takes the turns of its snapshot's slots in order, each once, groups in ascending order;
  before it releases the snapshot it has taken them all. */
  lemma EmissionOrder(states: seq<State>, labels: seq<Label>, k: nat, a: ActivityId)
    requires Run(states, labels) && k < |states| && a in states[k].acts && states[k].acts[a].Emitting?
    ensures var x, s := states[k].acts[a], states[k];
            && LogSlots(x.log) <= Flatten(x.view.snap)
            && (x.g == |x.view.snap| ==> LogSlots(x.log) == Flatten(x.view.snap))
            && Distinct(LogSlots(x.log))
            && (forall i :: 0 <= i < |x.log| ==> x.log[i].slot in s.group)
            && (forall i, j :: 0 <= i < j < |x.log| ==> s.group[x.log[i].slot] <= s.group[x.log[j].slot])
            && (x.turn.Visit? ==> |x.log| < |Flatten(x.view.snap)| && x.turn.slot == Flatten(x.view.snap)[|x.log|])
  {
    hide MemoryInv, SlotsInv, PinsInv, Run, Slots, Flatten, Shaped, LogSlots;
    InvRun(states, labels, k);
    var s := states[k];
    var x := s.acts[a];
    var snap := x.view.snap;
    assert CursorOk(x);
    ViewIsOk(s, a);
    FlattenShape(snap, s.group);
    if x.g == |snap| {
      assert snap[..x.g] == snap;
    } else {
      FlattenAt(snap, x.g, x.i);
    }
    var all := Flatten(snap);
    LogEntries(x.log);
    forall i | 0 <= i < |x.log| ensures x.log[i].slot == all[i] {
      assert LogSlots(x.log)[i] == all[i];
    }
  }

  lemma LogEntries(log: seq<Outcome>)
    ensures forall i :: 0 <= i < |log| ==> LogSlots(log)[i] == log[i].slot
  {
  }

  /** What comes before position (g, i), and what is at it, in emission order. */
  lemma {:induction false} FlattenAt(snap: seq<Group>, g: nat, i: nat)
    requires g < |snap| && i <= |snap[g].slts|
    ensures Before(snap, g, i) <= Flatten(snap)
    ensures i < |snap[g].slts| ==>
              |Before(snap, g, i)| < |Flatten(snap)| && Flatten(snap)[|Before(snap, g, i)|] == snap[g].slts[i]
    decreases |snap|
  {
    var n := |snap| - 1;
    if g == n {
      assert snap[..g] == snap[..n];
    } else {
      FlattenAt(snap[..n], g, i);
      assert snap[..n][..g] == snap[..g] && snap[..n][g] == snap[g];
    }
  }

  /** A slot that had not been added when an emission already held its snapshot never gets a turn in it. */
  lemma LateSlotsNotVisited(states: seq<State>, labels: seq<Label>, j: nat, k: nat, a: ActivityId, slot: SlotId)
    requires Run(states, labels) && j <= k < |states| && slot !in states[j].added
    requires a in states[j].acts && ViewOf(states[j].acts[a]).Some?
    requires a in states[k].acts && states[k].acts[a].Emitting?
    ensures states[k].acts[a].turn.Visit? ==> states[k].acts[a].turn.slot != slot
    ensures forall i :: 0 <= i < |states[k].acts[a].log| ==> states[k].acts[a].log[i].slot != slot
  {
    hide MemoryInv, PinsInv, Run, Slots, Flatten, Shaped, LogSlots, SlotsInv, ViewOf, CursorsInv;
    InvRun(states, labels, j);
    ViewStable(states, labels, j, k, a);
    ReaderFacts(states[k].acts[a]);
    EmissionOrder(states, labels, k, a);
    ViewIsOk(states[j], a);
    var x := states[k].acts[a];
    var all := Flatten(x.view.snap);
    FlattenElems(x.view.snap);
    LogEntries(x.log);
    forall i | 0 <= i < |all| ensures all[i] != slot {
      assert all[i] in Elems(all);
    }
    forall i | 0 <= i < |x.log| ensures x.log[i].slot != slot {
      assert x.log[i].slot == LogSlots(x.log)[i] == all[i];
    }
  }

  // ----- why a slot is called

  /** Activity a is, in state s, at a check of the very turn that x is in. */
  ghost predicate AtCheck(s: State, a: ActivityId, x: Activity, check: Check)
    requires x.Emitting? && x.turn.Visit?
  {
    a in s.acts && s.acts[a] == x.(turn := Visit(x.turn.slot, check))
  }

  ghost predicate SameTurn(s: State, a: ActivityId, x: Activity)
    requires x.Emitting? && x.turn.Visit?
  {
    a in s.acts && s.acts[a].Emitting? && s.acts[a].turn.Visit? && AtCheck(s, a, x, s.acts[a].turn.check)
  }

  /** The turn x is in began with a test that found its slot connected, at step b, and has not ended since. */
  ghost predicate FoundConnected(states: seq<State>, k: nat, a: ActivityId, x: Activity, b: nat)
    requires k < |states| && x.Emitting? && x.turn.Visit?
  {
    && b < k && AtCheck(states[b], a, x, CheckConnected) && x.turn.slot !in states[b].disconnected
    && forall m :: b <= m <= k ==> SameTurn(states[m], a, x)
  }

  ghost predicate FoundUnblocked(states: seq<State>, k: nat, a: ActivityId, x: Activity, c: nat)
    requires k < |states| && x.Emitting? && x.turn.Visit?
  {
    c < k && AtCheck(states[c], a, x, CheckBlocked) && x.turn.slot !in states[c].blocked
  }

  ghost predicate FoundAlive(states: seq<State>, k: nat, a: ActivityId, x: Activity, d: nat)
    requires k < |states| && x.Emitting? && x.turn.Visit?
  {
    d < k && AtCheck(states[d], a, x, LockObject) && !ObjectGone(states[d], x.turn.slot)
  }

  ghost predicate FoundStillConnected(states: seq<State>, k: nat, a: ActivityId, x: Activity, e: nat)
    requires k < |states| && x.Emitting? && x.turn.Visit?
  {
    e < k && AtCheck(states[e], a, x, CheckAgain) && x.turn.slot !in states[e].disconnected
  }

  /** The tests already passed by an emission in a turn. */
  ghost predicate Passed(states: seq<State>, k: nat, a: ActivityId, x: Activity)
    requires k < |states| && x.Emitting? && x.turn.Visit?
  {
    var check := x.turn.check;
    && (!check.CheckConnected? ==> exists b :: FoundConnected(states, k, a, x, b))
    && (!check.CheckConnected? && !check.CheckBlocked? ==> exists c :: FoundUnblocked(states, k, a, x, c))
    && (check.CheckAgain? ==> exists d :: FoundAlive(states, k, a, x, d))
    && (check.Calling? && x.turn.slot in states[k].tracks ==>
          (exists d :: FoundAlive(states, k, a, x, d)) && (exists e :: FoundStillConnected(states, k, a, x, e)))
  }

  /** Which check leads to which, and what it found. */
  lemma TurnTable(s: State, x: Activity)
    requires x.Emitting? && x.turn.Visit? && NextTurn(s, x, x.turn.slot, x.turn.check).turn.Visit?
    ensures var y, slot := NextTurn(s, x, x.turn.slot, x.turn.check), x.turn.slot;
            && y.Emitting? && y == x.(turn := Visit(slot, y.turn.check)) && !y.turn.check.CheckConnected?
            && (y.turn.check.CheckBlocked? ==> x.turn.check.CheckConnected? && slot !in s.disconnected)
            && (y.turn.check.LockObject? ==> x.turn.check.CheckBlocked? && slot !in s.blocked)
            && (y.turn.check.CheckAgain? ==> x.turn.check.LockObject? && !ObjectGone(s, slot))
            && (y.turn.check.Calling? ==>
                  || (x.turn.check.CheckBlocked? && slot !in s.blocked && slot !in s.tracks)
                  || (x.turn.check.CheckAgain? && slot !in s.disconnected))
            && (y.turn.check.Expired? ==> x.turn.check.LockObject?)
            && (y.turn.check.Awaiting? ==> x.turn.check.Expired?)
  {
  }

  /** y is at another check, or the same one, of the turn x is in. */
  predicate SameVisit(x: Activity, y: Activity) {
    x.Emitting? && x.turn.Visit? && y.Emitting? && y.turn.Visit? && y == x.(turn := Visit(x.turn.slot, y.turn.check))
  }

  lemma KeepConnected(states: seq<State>, k: nat, n: nat, a: ActivityId, x: Activity, y: Activity)
    requires n == k + 1 < |states| && SameVisit(x, y) && a in states[k].acts && states[k].acts[a] == x
    requires a in states[n].acts && states[n].acts[a] == y
    requires (x.turn.check.CheckConnected? && x.turn.slot !in states[k].disconnected)
             || (exists b :: FoundConnected(states, k, a, x, b))
    ensures exists b :: FoundConnected(states, n, a, y, b)
  {
    if x.turn.check.CheckConnected? && x.turn.slot !in states[k].disconnected {
      assert FoundConnected(states, n, a, y, k);
    } else {
      var b: nat :| FoundConnected(states, k, a, x, b);
      assert forall m :: b <= m <= k ==> SameTurn(states[m], a, x) ==> SameTurn(states[m], a, y);
      assert FoundConnected(states, n, a, y, b);
    }
  }

  lemma KeepUnblocked(states: seq<State>, k: nat, n: nat, a: ActivityId, x: Activity, y: Activity)
    requires n == k + 1 < |states| && SameVisit(x, y) && a in states[k].acts && states[k].acts[a] == x
    requires (x.turn.check.CheckBlocked? && x.turn.slot !in states[k].blocked)
             || (exists c :: FoundUnblocked(states, k, a, x, c))
    ensures exists c :: FoundUnblocked(states, n, a, y, c)
  {
    if x.turn.check.CheckBlocked? && x.turn.slot !in states[k].blocked {
      assert FoundUnblocked(states, n, a, y, k);
    } else {
      var c: nat :| FoundUnblocked(states, k, a, x, c);
      assert FoundUnblocked(states, n, a, y, c);
    }
  }

  lemma KeepAlive(states: seq<State>, k: nat, n: nat, a: ActivityId, x: Activity, y: Activity)
    requires n == k + 1 < |states| && SameVisit(x, y) && a in states[k].acts && states[k].acts[a] == x
    requires (x.turn.check.LockObject? && !ObjectGone(states[k], x.turn.slot))
             || (exists d :: FoundAlive(states, k, a, x, d))
    ensures exists d :: FoundAlive(states, n, a, y, d)
  {
    if x.turn.check.LockObject? && !ObjectGone(states[k], x.turn.slot) {
      assert FoundAlive(states, n, a, y, k);
    } else {
      var d: nat :| FoundAlive(states, k, a, x, d);
      assert FoundAlive(states, n, a, y, d);
    }
  }

  lemma KeepStillConnected(states: seq<State>, k: nat, n: nat, a: ActivityId, x: Activity, y: Activity)
    requires n == k + 1 < |states| && SameVisit(x, y) && a in states[k].acts && states[k].acts[a] == x
    requires (x.turn.check.CheckAgain? && x.turn.slot !in states[k].disconnected)
             || (exists e :: FoundStillConnected(states, k, a, x, e))
    ensures exists e :: FoundStillConnected(states, n, a, y, e)
  {
    if x.turn.check.CheckAgain? && x.turn.slot !in states[k].disconnected {
      assert FoundStillConnected(states, n, a, y, k);
    } else {
      var e: nat :| FoundStillConnected(states, k, a, x, e);
      assert FoundStillConnected(states, n, a, y, e);
    }
  }

  lemma PassedStep(states: seq<State>, k: nat, a: ActivityId, x: Activity, y: Activity)
    requires k + 1 < |states| && SameVisit(x, y)
    requires a in states[k].acts && states[k].acts[a] == x && a in states[k + 1].acts && states[k + 1].acts[a] == y
    requires y.turn.slot in states[k + 1].tracks ==> y.turn.slot in states[k].tracks
    requires y == x || y == NextTurn(states[k], x, x.turn.slot, x.turn.check)
    requires Passed(states, k, a, x)
    ensures Passed(states, k + 1, a, y)
  {
    hide FoundConnected, FoundUnblocked, FoundAlive, FoundStillConnected, NextTurn, ObjectGone;
    if y != x { TurnTable(states[k], x); }
    var check := y.turn.check;
    if !check.CheckConnected? { KeepConnected(states, k, k + 1, a, x, y); }
    if !check.CheckConnected? && !check.CheckBlocked? { KeepUnblocked(states, k, k + 1, a, x, y); }
    if check.CheckAgain? { KeepAlive(states, k, k + 1, a, x, y); }
    if check.Calling? && y.turn.slot in states[k + 1].tracks {
      KeepAlive(states, k, k + 1, a, x, y);
      KeepStillConnected(states, k, k + 1, a, x, y);
    }
  }

  /** In every run, an emission in a slot's turn has passed the tests that come before its current check. */
  lemma {:induction false} TurnsArePassed(states: seq<State>, labels: seq<Label>, k: nat, a: ActivityId)
    requires Run(states, labels) && k < |states|
    requires a in states[k].acts && states[k].acts[a].Emitting? && states[k].acts[a].turn.Visit?
    ensures Passed(states, k, a, states[k].acts[a])
    decreases k
  {
    hide Inv, After, Enabled, Passed, Grows, NextTurn;
    if k == 0 {
    } else {
      var s, l, y := states[k - 1], labels[k - 1], states[k].acts[a];
      InvRun(states, labels, k - 1);
      StepFollows(s, l);
      assert a in s.acts;
      var x := s.acts[a];
      if x.Emitting? && x.turn.Visit? {
        TurnsArePassed(states, labels, k - 1, a);
        if y != x { TurnTable(s, x); }
        KeepsTracks(s, l, states[k], a);
        PassedStep(states, k - 1, a, x, y);
      } else {
        FreshTurn(states, k, a);
      }
    }
  }

  lemma KeepsTracks(s: State, l: Label, t: State, a: ActivityId)
    requires Inv(s) && Enabled(s, l) && t == After(s, l) && Grows(s, l, t)
    requires a in s.acts && s.acts[a].Emitting? && s.acts[a].turn.Visit?
    ensures s.acts[a].turn.slot in t.tracks ==> s.acts[a].turn.slot in s.tracks
  {
    hide MemoryInv, SlotsInv, CursorsInv, PinsInv, ActivityStep, Exchange;
    VisitedIsKnown(s, a);
  }

  lemma FreshTurn(states: seq<State>, k: nat, a: ActivityId)
    requires k < |states| && a in states[k].acts && states[k].acts[a].Emitting?
    requires states[k].acts[a].turn.Visit? && states[k].acts[a].turn.check.CheckConnected?
    ensures Passed(states, k, a, states[k].acts[a])
  {
  }

  /** A callback runs only after, in the same turn, its slot was found connected, then unblocked and, if it
  tracks an object, that object alive and the slot still connected; and a tracked object is alive now. */
  lemma CalledOnlyIf(states: seq<State>, labels: seq<Label>, k: nat, a: ActivityId, slot: SlotId)
    requires Run(states, labels) && k < |states|
    requires a in states[k].acts && states[k].acts[a].Emitting? && states[k].acts[a].turn == Visit(slot, Calling)
    ensures var x := states[k].acts[a];
            && (exists b :: FoundConnected(states, k, a, x, b))
            && (exists c :: FoundUnblocked(states, k, a, x, c))
            && (slot in states[k].tracks ==>
                  && (exists d :: FoundAlive(states, k, a, x, d))
                  && (exists e :: FoundStillConnected(states, k, a, x, e))
                  && states[k].tracks[slot] !in states[k].expired)
  {
    hide FoundConnected, FoundUnblocked, FoundAlive, FoundStillConnected, MemoryInv, SlotsInv, CursorsInv, Run;
    TurnsArePassed(states, labels, k, a);
    InvRun(states, labels, k);
    if slot in states[k].tracks {
      assert Pins(states[k], states[k].acts[a], states[k].tracks[slot]);
    }
  }

  lemma {:induction false} DisconnectedForEver(states: seq<State>, labels: seq<Label>, j: nat, k: nat)
    requires Run(states, labels) && j <= k < |states|
    ensures states[j].disconnected <= states[k].disconnected
    decreases k
  {
    hide Inv, After, Enabled, Follows;
    if j == k {
    } else {
      DisconnectedForEver(states, labels, j, k - 1);
      InvRun(states, labels, k - 1);
      StepFollows(states[k - 1], labels[k - 1]);
    }
  }

  /** Activity a is an emission in the turn of the slot. */
  predicate TurnOf(s: State, a: ActivityId, slot: SlotId) {
    a in s.acts && s.acts[a].Emitting? && s.acts[a].turn.Visit? && s.acts[a].turn.slot == slot
  }

  /** A slot disconnected through a Connection while an emission is not in that slot's turn is not called by
  that emission from then on. */
  lemma DisconnectedNotCalled(states: seq<State>, labels: seq<Label>, j: nat, k: nat, a: ActivityId, slot: SlotId)
    requires Run(states, labels) && j <= k < |states| && slot in states[j].disconnected
    requires !TurnOf(states[j], a, slot)
    ensures !(a in states[k].acts && states[k].acts[a].Emitting? && states[k].acts[a].turn == Visit(slot, Calling))
  {
    hide Run, Inv;
    if a in states[k].acts && states[k].acts[a].Emitting? && states[k].acts[a].turn == Visit(slot, Calling) {
      CalledOnlyIf(states, labels, k, a, slot);
      var x := states[k].acts[a];
      var b: nat :| FoundConnected(states, k, a, x, b);
      TurnCovers(states, labels, j, k, a, x, b);
    }
  }

  lemma TurnCovers(states: seq<State>, labels: seq<Label>, j: nat, k: nat, a: ActivityId, x: Activity, b: nat)
    requires Run(states, labels) && j <= k < |states| && x.Emitting? && x.turn.Visit?
    requires FoundConnected(states, k, a, x, b) && x.turn.slot in states[j].disconnected
    ensures b < j && SameTurn(states[j], a, x)
  {
    hide Run;
    if j <= b { DisconnectedForEver(states, labels, j, b); }
  }
}
