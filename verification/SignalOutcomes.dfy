/** What every call has done when it returns: a writer has performed its operation exactly once, an emission has
given a turn to every slot of its list, and slot_count has counted them. */
module SignalOutcomes {
  import opened Wrappers
  import opened SlotTable
  import opened SignalProtocol
  import opened SignalMemory
  import opened SignalSlots
  import opened SignalInvariant
  import opened SignalRuns
  import opened SignalTheorems
  import opened SignalEffects
  import opened SignalEmissions

  // ----- writers

  /** The operation that a call is for. A disconnect call of a slot that is already disconnected has none. */
  predicate Starts(s: State, l: Label, op: Op) {
    match l
    case CallConnect(slot, _, _, _) => op == Add(slot)
    case CallBulk(which, _) => op == which
    case CallDisconnect(slot, _) => slot !in s.disconnected && op == CleanUp(slot)
    case _ => false
  }

  lemma StartedWriter(s: State, l: Label, op: Op)
    requires Enabled(s, l) && Starts(s, l, op)
    ensures var t := After(s, l); s.nextAct in t.acts && t.acts[s.nextAct] == Writing(op, Waiting)
    ensures After(s, l).nextAct == s.nextAct + 1
  {
    hide Enabled, Connected, After;
    AfterIsEffect(s, l);
    if l.CallConnect? { ConnectedFields(s, l.slot, l.gid, l.tracked); }
  }

  /** Step m is the mutation of activity a. */
  ghost predicate MutatesAt(states: seq<State>, labels: seq<Label>, m: nat, a: ActivityId) {
    m < |labels| && m < |states| && labels[m] == Act(a) && AtMutation(states[m], labels[m])
  }

  /** Activity a has not performed its operation yet. */
  predicate Unperformed(s: State, a: ActivityId) {
    a in s.acts && s.acts[a].Writing? && !Ended(s.acts[a].phase)
  }

  /** What an action does to a writer. */
  lemma WriterAct(s: State, a: ActivityId)
    requires Inv(s) && Enabled(s, Act(a)) && s.acts[a].Writing?
    ensures var x, t := s.acts[a], After(s, Act(a));
            && (a in t.acts ==> t.acts[a].Writing? && t.acts[a].op == x.op)
            && (Unperformed(t, a) <==> Unperformed(s, a) && !x.phase.Ready?)
  {
    hide MemoryInv, SlotsInv, CursorsInv, PinsInv, WriteStep, After, UnknownSlot;
    var x := s.acts[a];
    ActUnfolds(s, a);
    KnownSlot(s, a);
    WriterFrame(s, a, x.op, x.phase);
    if x.phase.Ready? {
      ReadyEnds(s, a, x.op);
    } else {
      WriterPhase(s, a, x.op, x.phase);
    }
  }

  lemma ReadyEnds(s: State, a: ActivityId, op: Op)
    requires a in s.acts && s.acts[a] == Writing(op, Ready) && !UnknownSlot(s, s.acts[a]) && s.cur in s.heap
    ensures var t := WriteStep(s, a, op, Ready); a in t.acts && t.acts[a].Writing? && Ended(t.acts[a].phase)
  {
    hide Mutate, Dropped;
  }

  /** Before state k, activity a, which is for op, has mutated the list once, or not at all if it has yet to. */
  ghost predicate Once(states: seq<State>, labels: seq<Label>, j: nat, k: nat, a: ActivityId, op: Op)
    requires k < |states|
  {
    && (a in states[k].acts ==> states[k].acts[a].Writing? && states[k].acts[a].op == op)
    && if Unperformed(states[k], a) then forall m :: j < m < k ==> !MutatesAt(states, labels, m, a)
       else exists m :: j < m < k && OnlyMutation(states, labels, j, k, m, a, op)
  }

  ghost predicate OnlyMutation(
    states: seq<State>, labels: seq<Label>, j: nat, k: nat, m: nat, a: ActivityId, op: Op)
  {
    && MutatesAt(states, labels, m, a) && states[m].acts[a].op == op
    && forall n :: j < n < k && MutatesAt(states, labels, n, a) ==> n == m
  }

  lemma OnceQuiet(states: seq<State>, labels: seq<Label>, j: nat, k: nat, a: ActivityId, op: Op)
    requires j < k && k + 1 < |states| && Once(states, labels, j, k, a, op) && !MutatesAt(states, labels, k, a)
    requires a in states[k + 1].acts ==> states[k + 1].acts[a].Writing? && states[k + 1].acts[a].op == op
    requires Unperformed(states[k + 1], a) <==> Unperformed(states[k], a)
    ensures Once(states, labels, j, k + 1, a, op)
  {
    hide MutatesAt;
    if !Unperformed(states[k], a) {
      var m :| j < m < k && OnlyMutation(states, labels, j, k, m, a, op);
      assert OnlyMutation(states, labels, j, k + 1, m, a, op);
    }
  }

  lemma OnceMutates(states: seq<State>, labels: seq<Label>, j: nat, k: nat, a: ActivityId, op: Op)
    requires j < k && k + 1 < |states| && Once(states, labels, j, k, a, op) && MutatesAt(states, labels, k, a)
    requires a in states[k + 1].acts ==> states[k + 1].acts[a].Writing? && states[k + 1].acts[a].op == op
    requires Unperformed(states[k], a) && !Unperformed(states[k + 1], a)
    ensures Once(states, labels, j, k + 1, a, op)
  {
    assert states[k].acts[a].op == op;
    hide MutatesAt, Unperformed;
    assert OnlyMutation(states, labels, j, k + 1, k, a, op);
  }

  lemma {:induction false} OnceRun(states: seq<State>, labels: seq<Label>, j: nat, k: nat, op: Op)
    requires Run(states, labels) && j < k < |states| && Starts(states[j], labels[j], op)
    ensures Once(states, labels, j, k, states[j].nextAct, op) && states[j].nextAct < states[k].nextAct
    decreases k
  {
    hide Inv, After, Enabled, Once, Grows, OwnStep;
    var a := states[j].nextAct;
    if k == j + 1 {
      StartedWriter(states[j], labels[j], op);
      NotYet(states, labels, j, a, op);
    } else {
      var s, l := states[k - 1], labels[k - 1];
      OnceRun(states, labels, j, k - 1, op);
      InvRun(states, labels, k - 1);
      StepFollows(s, l);
      OnceOp(states, labels, j, k - 1, a, op);
      if l == Act(a) {
        ActsIf(s, a);
        WriterAct(s, a);
        if s.acts[a].phase.Ready? {
          OnceMutates(states, labels, j, k - 1, a, op);
        } else {
          OnceQuiet(states, labels, j, k - 1, a, op);
        }
      } else {
        OnceQuiet(states, labels, j, k - 1, a, op);
      }
    }
  }

  lemma ActsIf(s: State, a: ActivityId)
    requires Enabled(s, Act(a))
    ensures a in s.acts
  {
  }

  lemma OnceOp(states: seq<State>, labels: seq<Label>, j: nat, k: nat, a: ActivityId, op: Op)
    requires k < |states| && Once(states, labels, j, k, a, op)
    ensures a in states[k].acts ==> states[k].acts[a].Writing? && states[k].acts[a].op == op
  {
  }

  lemma NotYet(states: seq<State>, labels: seq<Label>, j: nat, a: ActivityId, op: Op)
    requires j + 1 < |states| && a in states[j + 1].acts && states[j + 1].acts[a] == Writing(op, Waiting)
    ensures Once(states, labels, j, j + 1, a, op)
  {
  }

  /** Every connect, disconnect, disconnect_if or disconnect_all call that has returned has, at exactly one
  moment between its start and its return, done its operation to the list. */
  lemma CallPerformedOnce(states: seq<State>, labels: seq<Label>, j: nat, k: nat, op: Op)
    requires Run(states, labels) && j < k < |states| && Starts(states[j], labels[j], op)
    requires states[j].nextAct !in states[k].acts
    ensures exists m :: j < m < k && OnlyMutation(states, labels, j, k, m, states[j].nextAct, op)
                        && Listed(states[m + 1]) == Applied(op, Listed(states[m]), states[m].group)
  {
    hide Run, Listed, Applied;
    var a := states[j].nextAct;
    RunLengths(states, labels);
    OnceRun(states, labels, j, k, op);
    var m :| j < m < k && OnlyMutation(states, labels, j, k, m, a, op);
    CriticalSections(states, labels, m);
  }

  // ----- readers

  /** An emission has found the signal unblocked. */
  ghost predicate FoundOpen(states: seq<State>, labels: seq<Label>, e: nat, a: ActivityId) {
    && e < |labels| && e < |states| && labels[e] == Act(a)
    && a in states[e].acts && states[e].acts[a].Entering? && !states[e].signalBlocked
  }

  ghost predicate HasEntered(
    states: seq<State>, labels: seq<Label>, j: nat, k: nat, a: ActivityId, purpose: Purpose)
  {
    purpose == Emission ==> exists e :: j < e < k && FoundOpen(states, labels, e, a)
  }

  /** Step r is the one in which activity a takes its reference to the current list. */
  ghost predicate TakesReference(
    states: seq<State>, labels: seq<Label>, r: nat, a: ActivityId, purpose: Purpose)
  {
    && r < |labels| && r < |states| && labels[r] == Act(a)
    && a in states[r].acts && states[r].acts[a] == Referencing(purpose)
  }

  ghost predicate HasReference(
    states: seq<State>, labels: seq<Label>, j: nat, k: nat, a: ActivityId, purpose: Purpose)
  {
    exists r :: j < r < k && TakesReference(states, labels, r, a, purpose)
                && HasEntered(states, labels, j, r, a, purpose)
  }

  /** The reader has been through its whole snapshot. */
  predicate Through(x: Activity, purpose: Purpose) {
    match purpose
    case Emission => x.Emitting? && x.turn.Fetch? && x.g == |x.view.snap|
    case Count => x.Counting? && x.g == |x.view.snap|
  }

  /** Step m ends what activity a does with the list: it finds the signal blocked, or it is through. */
  ghost predicate EndsAt(
    states: seq<State>, labels: seq<Label>, j: nat, m: nat, a: ActivityId, purpose: Purpose)
  {
    && m < |labels| && m < |states| && labels[m] == Act(a) && a in states[m].acts
    && (|| (states[m].acts[a].Entering? && purpose == Emission && states[m].signalBlocked)
        || (Through(states[m].acts[a], purpose) && HasReference(states, labels, j, m, a, purpose)))
  }

  ghost predicate HasEnded(
    states: seq<State>, labels: seq<Label>, j: nat, k: nat, a: ActivityId, purpose: Purpose)
  {
    exists m :: j < m < k && EndsAt(states, labels, j, m, a, purpose)
  }

  /** A reader that waits for its reference. */
  predicate BeforeReference(x: Activity, purpose: Purpose) {
    x == Asking(purpose) || x == Referencing(purpose)
  }

  /** A reader that has, and is not through. */
  predicate AfterReference(x: Activity, purpose: Purpose) {
    || (x.Leaving? && x.purpose == purpose)
    || (x.Emitting? && purpose == Emission)
    || (x.Counting? && purpose == Count)
  }

  ghost predicate Reading(
    states: seq<State>, labels: seq<Label>, j: nat, k: nat, a: ActivityId, purpose: Purpose)
    requires k < |states|
  {
    if a in states[k].acts then
      var x := states[k].acts[a];
      || (x.Entering? && purpose == Emission)
      || (BeforeReference(x, purpose) && HasEntered(states, labels, j, k, a, purpose))
      || (AfterReference(x, purpose) && HasReference(states, labels, j, k, a, purpose))
      || (x.Freeing? && HasEnded(states, labels, j, k, a, purpose))
    else HasEnded(states, labels, j, k, a, purpose)
  }

  /** What an action does to a reader. */
  ghost predicate ReaderMoves(s: State, a: ActivityId, t: State) {
    a in s.acts &&
    var x := s.acts[a];
    var gone := a !in t.acts || t.acts[a].Freeing?;
    match x
    case Entering => if s.signalBlocked then gone else a in t.acts && t.acts[a] == Asking(Emission)
    case Asking(purpose) => a in t.acts && t.acts[a] == Referencing(purpose)
    case Referencing(purpose) => a in t.acts && t.acts[a].Leaving? && t.acts[a].purpose == purpose
    case Leaving(purpose, _) => a in t.acts && AfterReference(t.acts[a], purpose)
    case Emitting(_, _, _, _, _) => if gone then Through(x, Emission) else t.acts[a].Emitting?
    case Counting(_, _, _) => if gone then Through(x, Count) else t.acts[a].Counting?
    case Freeing(_) => a !in t.acts
    case Writing(_, _) => true
  }

  lemma ReaderAct(s: State, a: ActivityId)
    requires Inv(s) && Enabled(s, Act(a)) && !s.acts[a].Writing?
    ensures ReaderMoves(s, a, After(s, Act(a)))
  {
    hide MemoryInv, SlotsInv, CursorsInv, PinsInv, After, ReadStep, ReaderMoves;
    var x := s.acts[a];
    ActUnfolds(s, a);
    if x.Emitting? && x.turn.Visit? {
      VisitMoves(s, a);
    } else if x.Emitting? || x.Counting? {
      ThroughOnly(s, a);
    } else {
      EnterMoves(s, a);
    }
  }

  lemma EnterMoves(s: State, a: ActivityId)
    requires a in s.acts && !s.acts[a].Writing? && !s.acts[a].Emitting? && !s.acts[a].Counting?
    requires var t := Touched(s, s.acts[a]); t.Some? ==> t.value in s.heap
    ensures ReaderMoves(s, a, ReadStep(s, a, s.acts[a]))
  {
  }

  lemma VisitMoves(s: State, a: ActivityId)
    requires a in s.acts && s.acts[a].Emitting? && s.acts[a].turn.Visit? && s.acts[a].view.p in s.heap
    ensures ReaderMoves(s, a, ReadStep(s, a, s.acts[a]))
  {
    hide NextTurn, Exchange;
    var x := s.acts[a];
    TurnShape(s, x, x.turn.slot, x.turn.check);
  }

  lemma ThroughOnly(s: State, a: ActivityId)
    requires Inv(s) && a in s.acts && ((s.acts[a].Emitting? && s.acts[a].turn.Fetch?) || s.acts[a].Counting?)
    requires s.acts[a].view.p in s.heap
    ensures ReaderMoves(s, a, ReadStep(s, a, s.acts[a]))
  {
    hide MemoryInv, SlotsInv, PinsInv, CursorOk, Release, CursorsInv;
    var x := s.acts[a];
    SnapshotBounds(s, a);
    HeldCounts(s, a, x.view.p);
    if x.g >= |s.heap[x.view.p].groups| { ReleaseActs(s, a, x.view.p); }
  }

  lemma SnapshotBounds(s: State, a: ActivityId)
    requires Inv(s) && a in s.acts && (s.acts[a].Emitting? || s.acts[a].Counting?)
    ensures var x := s.acts[a];
            Held(x) == Some(x.view.p) && x.view.p in s.heap && s.heap[x.view.p].groups == x.view.snap
            && x.g <= |x.view.snap|
  {
    hide Counted, DoomedOnce, Exclusive, Distinct, SlotsInv, PinsInv, Accounted;
    MemoryParts(s, a);
    assert CursorOk(s.acts[a]);
  }

  // ----- following a reader through a run

  lemma ReferenceStays(states: seq<State>, labels: seq<Label>, j: nat, k: nat, a: ActivityId, purpose: Purpose)
    ensures HasEntered(states, labels, j, k, a, purpose) ==> HasEntered(states, labels, j, k + 1, a, purpose)
    ensures HasReference(states, labels, j, k, a, purpose) ==> HasReference(states, labels, j, k + 1, a, purpose)
    ensures HasEnded(states, labels, j, k, a, purpose) ==> HasEnded(states, labels, j, k + 1, a, purpose)
  {
    hide TakesReference, EndsAt, FoundOpen;
    EnteredStays(states, labels, j, k, a, purpose);
    hide HasEntered;
    if HasReference(states, labels, j, k, a, purpose) {
      var r :| j < r < k && TakesReference(states, labels, r, a, purpose)
               && HasEntered(states, labels, j, r, a, purpose);
      assert r < k + 1;
    }
    if HasEnded(states, labels, j, k, a, purpose) {
      var m :| j < m < k && EndsAt(states, labels, j, m, a, purpose);
      assert m < k + 1;
    }
  }

  lemma EnteredStays(states: seq<State>, labels: seq<Label>, j: nat, k: nat, a: ActivityId, purpose: Purpose)
    ensures HasEntered(states, labels, j, k, a, purpose) ==> HasEntered(states, labels, j, k + 1, a, purpose)
  {
    hide FoundOpen;
    if purpose == Emission && HasEntered(states, labels, j, k, a, purpose) {
      var e :| j < e < k && FoundOpen(states, labels, e, a);
      assert e < k + 1;
    }
  }

  /** Another activity acts, or none. */
  lemma ReadingQuiet(states: seq<State>, labels: seq<Label>, j: nat, k: nat, a: ActivityId, purpose: Purpose)
    requires k + 1 < |states| && Reading(states, labels, j, k, a, purpose)
    requires a in states[k + 1].acts <==> a in states[k].acts
    requires a in states[k].acts ==> states[k + 1].acts[a] == states[k].acts[a]
    ensures Reading(states, labels, j, k + 1, a, purpose)
  {
    hide BeforeReference, AfterReference, HasEntered, HasReference, HasEnded;
    ReferenceStays(states, labels, j, k, a, purpose);
  }

  lemma ReadingActs(states: seq<State>, labels: seq<Label>, j: nat, k: nat, a: ActivityId, purpose: Purpose)
    requires j < k < |labels| && k + 1 < |states| && labels[k] == Act(a) && a in states[k].acts
    requires Reading(states, labels, j, k, a, purpose) && ReaderMoves(states[k], a, states[k + 1])
    ensures Reading(states, labels, j, k + 1, a, purpose)
  {
    hide HasEntered, HasReference, HasEnded;
    ReferenceStays(states, labels, j, k, a, purpose);
    var x := states[k].acts[a];
    if x.Entering? && !states[k].signalBlocked {
      EntersNow(states, labels, j, k, a);
    } else if x == Referencing(purpose) {
      Witness(states, labels, j, k, a, purpose);
    } else if a !in states[k + 1].acts || states[k + 1].acts[a].Freeing? {
      if !x.Freeing? { EndsNow(states, labels, j, k, a, purpose); }
    }
  }

  lemma Witness(states: seq<State>, labels: seq<Label>, j: nat, k: nat, a: ActivityId, purpose: Purpose)
    requires j < k && TakesReference(states, labels, k, a, purpose) && HasEntered(states, labels, j, k, a, purpose)
    ensures HasReference(states, labels, j, k + 1, a, purpose)
  {
  }

  lemma EntersNow(states: seq<State>, labels: seq<Label>, j: nat, k: nat, a: ActivityId)
    requires j < k && FoundOpen(states, labels, k, a)
    ensures HasEntered(states, labels, j, k + 1, a, Emission)
  {
    hide FoundOpen;
  }

  lemma EndsNow(states: seq<State>, labels: seq<Label>, j: nat, k: nat, a: ActivityId, purpose: Purpose)
    requires j < k && EndsAt(states, labels, j, k, a, purpose)
    ensures HasEnded(states, labels, j, k + 1, a, purpose)
  {
    hide EndsAt;
  }

  lemma {:induction false} ReadingRun(states: seq<State>, labels: seq<Label>, j: nat, k: nat, purpose: Purpose)
    requires Run(states, labels) && j < k < |states|
    requires if purpose == Emission then labels[j].CallEmit? else labels[j].CallSlotCount?
    ensures Reading(states, labels, j, k, states[j].nextAct, purpose) && states[j].nextAct < states[k].nextAct
    decreases k
  {
    hide Inv, After, Enabled, Reading, ReaderMoves, Grows, OwnStep;
    var a := states[j].nextAct;
    if k == j + 1 {
      StartedReader(states[j], labels[j]);
      ReadingStarts(states, labels, j, a, purpose);
    } else {
      var s, l := states[k - 1], labels[k - 1];
      ReadingRun(states, labels, j, k - 1, purpose);
      InvRun(states, labels, k - 1);
      StepFollows(s, l);
      if l == Act(a) {
        ActsIf(s, a);
        ReadingReads(states, labels, j, k - 1, a, purpose);
        ReaderAct(s, a);
        ReadingActs(states, labels, j, k - 1, a, purpose);
      } else {
        ReadingQuiet(states, labels, j, k - 1, a, purpose);
      }
    }
  }

  lemma ReadingReads(states: seq<State>, labels: seq<Label>, j: nat, k: nat, a: ActivityId, purpose: Purpose)
    requires k < |states| && Reading(states, labels, j, k, a, purpose) && a in states[k].acts
    ensures !states[k].acts[a].Writing?
  {
    hide HasReference, HasEnded;
  }

  lemma StartedReader(s: State, l: Label)
    requires Enabled(s, l) && (l.CallEmit? || l.CallSlotCount?)
    ensures var t := After(s, l);
            && t.nextAct == s.nextAct + 1 && s.nextAct in t.acts
            && t.acts[s.nextAct] == if l.CallEmit? then Entering else Asking(Count)
  {
    hide Enabled, After;
    AfterIsEffect(s, l);
  }

  lemma ReadingStarts(states: seq<State>, labels: seq<Label>, j: nat, a: ActivityId, purpose: Purpose)
    requires j + 1 < |states| && a in states[j + 1].acts
    requires states[j + 1].acts[a] == if purpose == Emission then Entering else Asking(Count)
    ensures Reading(states, labels, j, j + 1, a, purpose)
  {
  }

  // ----- what readers have done

  /** At step r the emission took its reference; by step m it had given a turn to exactly the slots that were
  on the list then. */
  ghost predicate GaveTurns(states: seq<State>, labels: seq<Label>, r: nat, m: nat, a: ActivityId) {
    && TakesReference(states, labels, r, a, Emission) && r < m < |states|
    && a in states[m].acts && states[m].acts[a].Emitting?
    && forall slot :: slot in LogSlots(states[m].acts[a].log) <==> slot in Listed(states[r])
  }

  ghost predicate FoundBlocked(states: seq<State>, labels: seq<Label>, m: nat, a: ActivityId) {
    && m < |labels| && m < |states| && labels[m] == Act(a)
    && a in states[m].acts && states[m].acts[a].Entering? && states[m].signalBlocked
  }

  /** Every emission that has returned found the signal blocked, or found it unblocked and then gave a turn to
  exactly the slots that were on the list at one later moment before its return. */
  lemma EmissionOutcome(states: seq<State>, labels: seq<Label>, j: nat, k: nat)
    requires Run(states, labels) && j < k < |states| && labels[j].CallEmit? && states[j].nextAct !in states[k].acts
    ensures || (exists m :: j < m < k && FoundBlocked(states, labels, m, states[j].nextAct))
            || (exists e, r, m :: j < e < r < m < k && FoundOpen(states, labels, e, states[j].nextAct)
                                  && GaveTurns(states, labels, r, m, states[j].nextAct))
  {
    hide Run, Listed, LogSlots;
    var a := states[j].nextAct;
    RunLengths(states, labels);
    ReadingRun(states, labels, j, k, Emission);
    var m :| j < m < k && EndsAt(states, labels, j, m, a, Emission);
    if states[m].acts[a].Entering? {
      assert FoundBlocked(states, labels, m, a);
    } else {
      var r :| j < r < m && TakesReference(states, labels, r, a, Emission)
               && HasEntered(states, labels, j, r, a, Emission);
      var e :| j < e < r && FoundOpen(states, labels, e, a);
      forall slot ensures slot in LogSlots(states[m].acts[a].log) <==> slot in Listed(states[r]) {
        TurnIffListed(states, labels, r, m, a, slot);
        ListedRemains(states, labels, r);
      }
      assert GaveTurns(states, labels, r, m, a);
    }
  }

  lemma ListedRemains(states: seq<State>, labels: seq<Label>, k: nat)
    requires Run(states, labels) && k < |states|
    ensures Listed(states[k]) == Remaining(states[k])
  {
    hide Run, Slots, WellFormed, Distinct, NoCleanupPending;
    ListIsLedger(states, labels, k);
  }

  /** At step r slot_count took its reference; its sum at step m is the number of slots on the list then. */
  ghost predicate CountedSlots(states: seq<State>, labels: seq<Label>, r: nat, m: nat, a: ActivityId) {
    && TakesReference(states, labels, r, a, Count) && r < m < |states|
    && a in states[m].acts && states[m].acts[a].Counting? && states[m].acts[a].g == |states[m].acts[a].view.snap|
    && states[m].acts[a].sum == |Listed(states[r])|
  }

  /** Every slot_count that has returned has counted the slots that were on the list at one moment between its
  start and its return. */
  lemma CountOutcome(states: seq<State>, labels: seq<Label>, j: nat, k: nat)
    requires Run(states, labels) && j < k < |states| && labels[j].CallSlotCount?
    requires states[j].nextAct !in states[k].acts
    ensures exists r, m :: j < r < m < k && CountedSlots(states, labels, r, m, states[j].nextAct)
  {
    hide Run, Listed;
    var a := states[j].nextAct;
    RunLengths(states, labels);
    ReadingRun(states, labels, j, k, Count);
    var m :| j < m < k && EndsAt(states, labels, j, m, a, Count);
    var r :| j < r < m && TakesReference(states, labels, r, a, Count);
    SlotCountIsExact(states, labels, r, m, a);
    ListedRemains(states, labels, r);
    assert CountedSlots(states, labels, r, m, a);
  }
}
