/** Whether running calls can end: exactly when no destructor that runs under the mutex has called the signal. */
module SignalDeadlock {
  import opened Wrappers
  import opened SlotTable
  import opened SignalProtocol
  import opened SignalMemory
  import opened SignalSlots
  import opened SignalInvariant
  import opened SignalRuns
  import opened SignalTheorems
  import opened SignalProgress

  // ----- callers and callees

  /** Call b, still running, was started by user code of a. */
  predicate Callee(s: State, a: ActivityId, b: ActivityId) {
    b in s.acts && b in s.parent && s.parent[b] == a
  }

  /** Call a is running destructors while it holds the mutex. */
  predicate DestroysUnderMutex(s: State, a: ActivityId) {
    a in s.acts && s.acts[a].Writing? && s.acts[a].phase.Destroying?
  }

  /** Callers are older than their callees. */
  ghost predicate OlderCallers(s: State) {
    forall b :: b in s.parent ==> s.parent[b] < b < s.nextAct
  }

  /** A caller is still in its user code. */
  ghost predicate CallersWait(s: State) {
    forall a, b :: Callee(s, a, b) ==> a in s.acts && RunsUserCode(s.acts[a])
  }

  /** A call made under the mutex has not got the mutex. */
  ghost predicate CalleesOutside(s: State) {
    forall a, b :: Callee(s, a, b) && DestroysUnderMutex(s, a) ==> s.acts[b].Entering? || WantsMutex(s.acts[b])
  }

  /** An emission waits only for a cleanup that started after it. */
  ghost predicate WaitsLater(s: State) {
    forall a :: a in s.acts && Waits(s.acts[a]) ==> a < s.acts[a].turn.check.child
  }

  ghost predicate CallsInv(s: State) {
    OlderCallers(s) && CallersWait(s) && CalleesOutside(s) && WaitsLater(s)
  }

  /** Who called whom: unchanged, except for the call that is started, if one is. */
  lemma ParentStep(s: State, l: Label)
    requires Inv(s) && Enabled(s, l)
    ensures var t := After(s, l);
            || t.parent == s.parent
            || (Caller(l).Some? && s.nextAct < t.nextAct && t.parent == s.parent[s.nextAct := Caller(l).value])
  {
    if l.Act? {
      StepFollows(s, l);
    } else {
      hide Inv;
      EffectParent(s, l);
      hide Effect;
    }
  }

  lemma EffectParent(s: State, l: Label)
    requires Enabled(s, l) && !l.Act?
    ensures Effect(s, l).parent == s.parent
  {
    match l
    case CallEmit(_) =>
    case CallSlotCount(_) =>
    case CallConnect(slot, gid, obj, _) => hide Connected; ConnectedFields(s, slot, gid, obj);
    case CallBulk(_, _) =>
    case CallDisconnect(_, _) =>
    case SetBlocked(_, _) =>
    case BlockSignal(_) =>
    case Expire(_) =>
  }

  lemma OlderStep(s: State, l: Label)
    requires Inv(s) && OlderCallers(s) && Enabled(s, l)
    ensures OlderCallers(After(s, l))
  {
    hide Inv, After, Enabled, Grows, OwnStep, Newborn;
    StepFollows(s, l);
    ParentStep(s, l);
    if Caller(l).Some? { CallerKnown(s, l); }
  }

  lemma CallerKnown(s: State, l: Label)
    requires Inv(s) && Enabled(s, l) && Caller(l).Some?
    ensures Caller(l).value in s.acts && RunsUserCode(s.acts[Caller(l).value]) && Caller(l).value < s.nextAct
    ensures IsCall(l)
  {
    hide Inv;
    KnownId(s, Caller(l).value);
  }

  /** Where a callee after a transition comes from. */
  lemma CalleeFrom(s: State, l: Label, a: ActivityId, b: ActivityId)
    requires Inv(s) && OlderCallers(s) && Enabled(s, l) && Callee(After(s, l), a, b)
    ensures Callee(s, a, b) || (b !in s.acts && Caller(l) == Some(a) && Newborn(After(s, l).acts[b]))
  {
    hide Inv, After, Enabled, Grows, OwnStep, Newborn;
    StepFollows(s, l);
    ParentStep(s, l);
    if b in s.acts { KnownId(s, b); }
  }

  lemma CallersStep(s: State, l: Label)
    requires Inv(s) && CallsInv(s) && Enabled(s, l)
    ensures CallersWait(After(s, l))
  {
    hide Inv, After, Grows, OwnStep, Newborn, RunsUserCode, CalleesOutside, WaitsLater;
    var t := After(s, l);
    StepFollows(s, l);
    forall a, b | Callee(t, a, b) ensures a in t.acts && RunsUserCode(t.acts[a]) {
      CalleeFrom(s, l, a, b);
      if Callee(s, a, b) {
        assert l != Act(a);
      } else {
        CallerKnown(s, l);
      }
    }
  }

  /** A call that got into its destructors by its own action has not called anyone yet. */
  lemma OutsideStep(s: State, l: Label)
    requires Inv(s) && CallsInv(s) && Enabled(s, l)
    ensures CalleesOutside(After(s, l))
  {
    hide Inv, After, Grows, RunsUserCode, WaitsLater, OlderCallers, CallersWait;
    var t := After(s, l);
    StepFollows(s, l);
    forall a, b | Callee(t, a, b) && DestroysUnderMutex(t, a) ensures t.acts[b].Entering? || WantsMutex(t.acts[b]) {
      CalleeFrom(s, l, a, b);
      if Callee(s, a, b) {
        CallerStays(s, l, a, b);
        if l == Act(b) { OutsideAct(s, a, b); }
      }
    }
  }

  /** While a callee runs, its caller does not change. */
  lemma CallerStays(s: State, l: Label, a: ActivityId, b: ActivityId)
    requires Inv(s) && CallersWait(s) && Enabled(s, l) && Callee(s, a, b)
    ensures l != Act(a) && a in s.acts && a in After(s, l).acts && After(s, l).acts[a] == s.acts[a]
  {
    hide Inv, After, Grows, OwnStep, Newborn;
    StepFollows(s, l);
  }

  /** A callee under the mutex can only be an emission about to find the signal blocked, or to ask. */
  lemma OutsideAct(s: State, a: ActivityId, b: ActivityId)
    requires Inv(s) && CalleesOutside(s) && Callee(s, a, b) && DestroysUnderMutex(s, a) && Enabled(s, Act(b))
    ensures s.acts[b].Entering?
    ensures var t := After(s, Act(b));
            if s.signalBlocked then b !in t.acts else b in t.acts && t.acts[b] == Asking(Emission)
  {
    hide MemoryInv, SlotsInv, CursorsInv, PinsInv;
    DestroyerHolds(s, a);
    ActUnfolds(s, b);
  }

  lemma DestroyerHolds(s: State, a: ActivityId)
    requires Inv(s) && DestroysUnderMutex(s, a)
    ensures s.mutex == Some(a)
  {
    hide MemoryInv, SlotsInv, CursorsInv, PinsInv;
    Holding(s, a);
  }

  lemma WaitsStep(s: State, l: Label)
    requires Inv(s) && WaitsLater(s) && Enabled(s, l)
    ensures WaitsLater(After(s, l))
  {
    hide Inv, After, Enabled, Grows, NextTurn, ViewOf;
    var t := After(s, l);
    StepFollows(s, l);
    forall a | a in t.acts && Waits(t.acts[a]) ensures a < t.acts[a].turn.check.child {
      assert a in s.acts;
      KnownId(s, a);
      if s.acts[a].Emitting? && s.acts[a].turn.Visit? { WaitStarts(s, s.acts[a]); }
    }
  }

  lemma WaitStarts(s: State, x: Activity)
    requires x.Emitting? && x.turn.Visit?
    ensures var y := NextTurn(s, x, x.turn.slot, x.turn.check);
            Waits(y) ==> x.turn.check.Expired? && y.turn.check.child == s.nextAct
  {
  }

  lemma {:induction false} RunCalls(states: seq<State>, labels: seq<Label>, k: nat)
    requires Run(states, labels) && k < |states|
    ensures CallsInv(states[k])
    decreases k
  {
    hide Inv, After, Enabled;
    if k == 0 {
      assert states[0] == INIT;
    } else {
      hide CallsInv;
      RunCalls(states, labels, k - 1);
      InvRun(states, labels, k - 1);
      CallsStep(states[k - 1], labels[k - 1]);
    }
  }

  lemma CallsStep(s: State, l: Label)
    requires Inv(s) && CallsInv(s) && Enabled(s, l)
    ensures CallsInv(After(s, l))
  {
    hide Inv, After, Enabled, OlderCallers, CallersWait, CalleesOutside, WaitsLater;
    OlderStep(s, l);
    CallersStep(s, l);
    OutsideStep(s, l);
    WaitsStep(s, l);
  }

  // ----- some call can act

  /** The calls that destructors have made under the mutex are emissions about to find the signal blocked. */
  ghost predicate Harmless(s: State) {
    forall a, b :: Callee(s, a, b) && DestroysUnderMutex(s, a) ==> s.acts[b].Entering? && s.signalBlocked
  }

  lemma {:induction false} SomeoneCanAct(s: State, a: ActivityId) returns (b: ActivityId)
    requires Inv(s) && CallsInv(s) && a in s.acts && s.mutex == None
    ensures CanAct(s, b)
    decreases s.nextAct - a
  {
    hide Inv, CallersWait, CalleesOutside;
    KnownId(s, a);
    if Waits(s.acts[a]) && s.acts[a].turn.check.child in s.acts {
      b := s.acts[a].turn.check.child;
      KnownId(s, b);
      b := SomeoneCanAct(s, b);
    } else if RunsUserCode(s.acts[a]) && HasCallees(s, a) {
      b :| b in s.acts && b in s.parent && s.parent[b] == a;
      b := SomeoneCanAct(s, b);
    } else {
      b := a;
    }
  }

  lemma HolderOrCalleeActs(s: State) returns (b: ActivityId)
    requires Inv(s) && Harmless(s) && s.mutex.Some?
    ensures CanAct(s, b)
  {
    var h := s.mutex.value;
    HolderHas(s);
    hide Inv;
    if HasCallees(s, h) && RunsUserCode(s.acts[h]) {
      b :| b in s.acts && b in s.parent && s.parent[b] == h;
      assert Callee(s, h, b);
    } else {
      b := h;
    }
  }

  lemma HolderHas(s: State)
    requires Inv(s) && s.mutex.Some?
    ensures s.mutex.value in s.acts && HasMutex(s.acts[s.mutex.value])
  {
    hide Counted, ActsOk, DoomedOnce, Accounted, SlotsInv, CursorsInv, PinsInv;
  }

  /** In every state of every run with a running call, some running call can act, unless a destructor has made
  a call under the mutex that will want the mutex: there is no other deadlock, be it on the mutex, between
  an emission and the cleanup it waits for, or between a callback and the calls it makes. */
  lemma NeverStuck(states: seq<State>, labels: seq<Label>, k: nat) returns (b: ActivityId)
    requires Run(states, labels) && k < |states| && states[k].acts != map[] && Harmless(states[k])
    ensures Enabled(states[k], Act(b))
  {
    hide Run, Inv, CallsInv, Harmless;
    var s := states[k];
    InvRun(states, labels, k);
    RunCalls(states, labels, k);
    if s.mutex.Some? {
      b := HolderOrCalleeActs(s);
    } else {
      var a :| a in s.acts;
      b := SomeoneCanAct(s, a);
    }
  }

  /** Actions of running calls keep it so. */
  lemma HarmlessStep(s: State, c: ActivityId)
    requires Inv(s) && CallsInv(s) && Harmless(s) && Enabled(s, Act(c))
    ensures Harmless(After(s, Act(c)))
  {
    hide Inv, After, RunsUserCode, WaitsLater;
    var t := After(s, Act(c));
    StepFollows(s, Act(c));
    forall a, b | Callee(t, a, b) && DestroysUnderMutex(t, a) ensures t.acts[b].Entering? && t.signalBlocked {
      CalleeFrom(s, Act(c), a, b);
      CallerStays(s, Act(c), a, b);
      if c == b { OutsideAct(s, a, b); }
    }
  }

  // ----- running calls can end

  /** A longer run that starts no new calls. */
  ghost predicate Continues(states: seq<State>, labels: seq<Label>, more: seq<State>, path: seq<Label>) {
    && Run(states, labels) && Run(more, path) && |labels| <= |path|
    && more[..|states|] == states && path[..|labels|] == labels
    && forall k :: |labels| <= k < |path| ==> path[k].Act?
  }

  /** A continuation after which no call is running. */
  ghost predicate AllReturn(states: seq<State>, labels: seq<Label>, more: seq<State>, path: seq<Label>) {
    Continues(states, labels, more, path) && |more| > 0 && more[|more| - 1].acts == map[]
  }

  lemma ContinuesByOne(states: seq<State>, labels: seq<Label>, a: ActivityId, next: seq<State>, longer: seq<Label>,
    more: seq<State>, path: seq<Label>)
    requires Run(states, labels) && |states| > 0 && Enabled(states[|states| - 1], Act(a))
    requires next == states + [After(states[|states| - 1], Act(a))] && longer == labels + [Act(a)]
    requires Continues(next, longer, more, path)
    ensures Continues(states, labels, more, path)
  {
    hide Run, After, Enabled;
    RunLengths(states, labels);
    RunLengths(next, longer);
    RunLengths(more, path);
    assert more[..|states|] == more[..|next|][..|states|];
    assert path[..|labels|] == path[..|longer|][..|labels|];
    assert path[|labels|] == path[..|longer|][|labels|];
  }

  /** From a state without such a call, the running calls can all return: there is a continuation of the run,
  by their own actions alone, after which none is running. */
  lemma {:induction false} CallsFinish(states: seq<State>, labels: seq<Label>)
    returns (more: seq<State>, path: seq<Label>)
    requires Run(states, labels) && |states| > 0 && Harmless(states[|states| - 1])
    ensures AllReturn(states, labels, more, path)
    decreases Readers(states[|states| - 1]), Loops(states[|states| - 1]), Writers(states[|states| - 1])
  {
    hide Inv, CallsInv, Harmless, After, Enabled, Readers, Loops, Writers;
    more, path := states, labels;
    var s := states[|states| - 1];
    if s.acts == map[] {
      assert more[..|states|] == states && path[..|labels|] == labels;
    } else {
      var b := NeverStuck(states, labels, |states| - 1);
      InvRun(states, labels, |states| - 1);
      RunCalls(states, labels, |states| - 1);
      EveryActionCounts(s, b);
      HarmlessStep(s, b);
      var next, longer := Extend(states, labels, Act(b));
      more, path := CallsFinish(next, longer);
      ContinuesByOne(states, labels, b, next, longer, more, path);
    }
  }

  // ----- or never will

  /** Call a runs a destructor under the mutex that waits for call b, which waits for the mutex. */
  ghost predicate Deadlocked(s: State, a: ActivityId, b: ActivityId) {
    Callee(s, a, b) && DestroysUnderMutex(s, a) && WantsMutex(s.acts[b])
  }

  /** Whatever happens next, neither call returns. */
  lemma {:induction false} DeadlockedForEver(
    states: seq<State>, labels: seq<Label>, j: nat, k: nat, a: ActivityId, b: ActivityId)
    requires Run(states, labels) && j <= k < |states| && Deadlocked(states[j], a, b)
    ensures Deadlocked(states[k], a, b) && states[k].mutex == Some(a)
    decreases k
  {
    hide Inv, CallsInv, After, Enabled, Deadlocked;
    if j == k {
    } else {
      DeadlockedForEver(states, labels, j, k - 1, a, b);
      InvRun(states, labels, k - 1);
      RunCalls(states, labels, k - 1);
      DeadlockStep(states[k - 1], labels[k - 1], a, b);
    }
    InvRun(states, labels, k);
    DeadlockHolds(states[k], a, b);
  }

  lemma DeadlockHolds(s: State, a: ActivityId, b: ActivityId)
    requires Inv(s) && Deadlocked(s, a, b)
    ensures s.mutex == Some(a)
  {
    hide Inv;
    DestroyerHolds(s, a);
  }

  lemma DeadlockStep(s: State, l: Label, a: ActivityId, b: ActivityId)
    requires Inv(s) && CallsInv(s) && Enabled(s, l) && Deadlocked(s, a, b)
    ensures Deadlocked(After(s, l), a, b)
  {
    hide Inv, After, Grows, RunsUserCode, OwnStep, Newborn;
    DestroyerHolds(s, a);
    CallerStays(s, l, a, b);
    StepFollows(s, l);
    ParentStep(s, l);
    KnownId(s, b);
  }

  /** A call that will ask for the mutex, made under the mutex: it does not return without new calls. */
  ghost predicate WillDeadlock(s: State, a: ActivityId, b: ActivityId) {
    Callee(s, a, b) && DestroysUnderMutex(s, a) && !(s.acts[b].Entering? && s.signalBlocked)
  }

  lemma WillDeadlockStep(s: State, c: ActivityId, a: ActivityId, b: ActivityId)
    requires Inv(s) && CallsInv(s) && Enabled(s, Act(c)) && WillDeadlock(s, a, b)
    ensures WillDeadlock(After(s, Act(c)), a, b)
  {
    hide Inv, After, RunsUserCode, OwnStep, Newborn;
    CallerStays(s, Act(c), a, b);
    StepFollows(s, Act(c));
    KnownId(s, b);
    if c == b { OutsideAct(s, a, b); }
  }

  lemma {:induction false} WillDeadlockForEver(
    states: seq<State>, labels: seq<Label>, more: seq<State>, path: seq<Label>, k: nat, a: ActivityId, b: ActivityId)
    requires Continues(states, labels, more, path) && 0 < |states| <= k + 1 <= |more|
    requires WillDeadlock(states[|states| - 1], a, b)
    ensures WillDeadlock(more[k], a, b)
    decreases k
  {
    hide Inv, CallsInv, After, Enabled, WillDeadlock;
    if k == |states| - 1 {
      assert more[k] == more[..|states|][k];
    } else {
      WillDeadlockForEver(states, labels, more, path, k - 1, a, b);
      InvRun(more, path, k - 1);
      RunCalls(more, path, k - 1);
      WillDeadlockStep(more[k - 1], path[k - 1].a, a, b);
    }
  }

  /** The running calls of a state can all return, without new calls, if and only if no destructor has made a
  call under the mutex, other than an emission of a blocked signal. */
  lemma CallsCanFinishIff(states: seq<State>, labels: seq<Label>)
    requires Run(states, labels) && |states| > 0
    ensures Harmless(states[|states| - 1]) <==>
              exists more, path :: AllReturn(states, labels, more, path)
  {
    hide Run;
    if Harmless(states[|states| - 1]) {
      var more, path := CallsFinish(states, labels);
    } else {
      var a, b :| Callee(states[|states| - 1], a, b) && DestroysUnderMutex(states[|states| - 1], a)
                  && !(states[|states| - 1].acts[b].Entering? && states[|states| - 1].signalBlocked);
      forall more, path | Continues(states, labels, more, path) ensures !AllReturn(states, labels, more, path) {
        if |more| > 0 { NeverEmpty(states, labels, more, path, a, b); }
      }
    }
  }

  lemma NeverEmpty(
    states: seq<State>, labels: seq<Label>, more: seq<State>, path: seq<Label>, a: ActivityId, b: ActivityId)
    requires Continues(states, labels, more, path) && |states| > 0 && |more| > 0
    requires WillDeadlock(states[|states| - 1], a, b)
    ensures b in more[|more| - 1].acts
  {
    hide Inv, After, Enabled;
    WillDeadlockForEver(states, labels, more, path, |more| - 1, a, b);
  }
}
