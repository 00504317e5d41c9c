/** Which of the slots that get a turn are called. */
module SignalCalls {
  import opened Wrappers
  import opened SlotTable
  import opened SignalProtocol
  import opened SignalMemory
  import opened SignalSlots
  import opened SignalInvariant
  import opened SignalRuns
  import opened SignalTheorems

  /** At step e, activity a performs one action of a slot's turn. */
  ghost predicate Acted(states: seq<State>, labels: seq<Label>, e: nat, a: ActivityId) {
    && e < |labels| && e < |states| && labels[e] == Act(a)
    && a in states[e].acts && states[e].acts[a].Emitting? && states[e].acts[a].turn.Visit?
  }

  /** What a check finds that speaks against a call. */
  predicate Fails(s: State, slot: SlotId, check: Check) {
    match check
    case CheckConnected => slot in s.disconnected
    case CheckBlocked => slot in s.blocked
    case LockObject => ObjectGone(s, slot)
    case CheckAgain => slot in s.disconnected
    case _ => false
  }

  /** At step e, a check in turn number n of activity a fails. */
  ghost predicate FailedAt(states: seq<State>, labels: seq<Label>, e: nat, a: ActivityId, n: nat) {
    && Acted(states, labels, e, a) && |states[e].acts[a].log| == n
    && Fails(states[e], states[e].acts[a].turn.slot, states[e].acts[a].turn.check)
  }

  /** Some check in turn number n of activity a failed before state k. */
  ghost predicate Failed(states: seq<State>, labels: seq<Label>, k: nat, a: ActivityId, n: nat) {
    exists e: nat :: e < k && FailedAt(states, labels, e, a, n)
  }

  ghost predicate CallingAt(states: seq<State>, m: nat, a: ActivityId, n: nat, slot: SlotId) {
    && m < |states| && a in states[m].acts && states[m].acts[a].Emitting?
    && |states[m].acts[a].log| == n && states[m].acts[a].turn == Visit(slot, Calling)
  }

  // ----- what is known of an activity's turns in state k

  /** Actions of turns so far belong to logged turns of the same slots, or to the turn x is in. */
  ghost predicate TurnsKnown(states: seq<State>, labels: seq<Label>, k: nat, a: ActivityId, x: Activity)
    requires x.Emitting?
  {
    forall e: nat :: e < k && Acted(states, labels, e, a) ==>
      var n, slot := |states[e].acts[a].log|, states[e].acts[a].turn.slot;
      if n < |x.log| then slot == x.log[n].slot else n == |x.log| && x.turn.Visit? && slot == x.turn.slot
  }

  /** Turns that ended: called exactly when no check failed, and then through the calling state. */
  ghost predicate LogRight(states: seq<State>, labels: seq<Label>, k: nat, a: ActivityId, x: Activity)
    requires x.Emitting?
  {
    forall i :: 0 <= i < |x.log| ==>
      && (x.log[i].called <==> !Failed(states, labels, k, a, i))
      && (x.log[i].called ==> exists m: nat :: m < k && CallingAt(states, m, a, i, x.log[i].slot))
  }

  /** The turn x is in: a check has failed exactly when it is about to disconnect an expired slot. */
  ghost predicate TurnRight(states: seq<State>, labels: seq<Label>, k: nat, a: ActivityId, x: Activity)
    requires x.Emitting?
  {
    x.turn.Visit? ==>
      (Failed(states, labels, k, a, |x.log|) <==> x.turn.check.Expired? || x.turn.check.Awaiting?)
  }

  ghost predicate Verdicts(states: seq<State>, labels: seq<Label>, k: nat, a: ActivityId, x: Activity) {
    && (x.Emitting? ==>
          && TurnsKnown(states, labels, k, a, x) && LogRight(states, labels, k, a, x)
          && TurnRight(states, labels, k, a, x))
    && (!x.Emitting? && !x.Freeing? ==> forall e: nat :: e < k ==> !Acted(states, labels, e, a))
  }

  // ----- one transition

  lemma FailedGrows(states: seq<State>, labels: seq<Label>, k: nat, a: ActivityId, n: nat)
    ensures Failed(states, labels, k + 1, a, n) <==>
              Failed(states, labels, k, a, n) || FailedAt(states, labels, k, a, n)
  {
    hide FailedAt;
    if Failed(states, labels, k + 1, a, n) {
      var e: nat :| e < k + 1 && FailedAt(states, labels, e, a, n);
      assert e < k || FailedAt(states, labels, k, a, n);
    }
    if Failed(states, labels, k, a, n) {
      var e: nat :| e < k && FailedAt(states, labels, e, a, n);
      assert e < k + 1;
    }
  }

  /** When a does not act in a turn, nothing changes. */
  lemma QuietVerdicts(states: seq<State>, labels: seq<Label>, k: nat, a: ActivityId, x: Activity)
    requires Verdicts(states, labels, k, a, x) && !Acted(states, labels, k, a)
    ensures Verdicts(states, labels, k + 1, a, x)
  {
    hide Acted, Failed, CallingAt;
    NotFailed(states, labels, k, a);
    if x.Emitting? {
      forall i | 0 <= i < |x.log|
        ensures x.log[i].called <==> !Failed(states, labels, k + 1, a, i)
        ensures x.log[i].called ==> exists m: nat :: m < k + 1 && CallingAt(states, m, a, i, x.log[i].slot)
      {
        FailedGrows(states, labels, k, a, i);
        if x.log[i].called { LaterCall(states, k, a, i, x.log[i].slot); }
      }
      FailedGrows(states, labels, k, a, |x.log|);
    }
  }

  lemma NotFailed(states: seq<State>, labels: seq<Label>, k: nat, a: ActivityId)
    ensures !Acted(states, labels, k, a) ==> forall n: nat :: !FailedAt(states, labels, k, a, n)
  {
  }

  lemma LaterCall(states: seq<State>, k: nat, a: ActivityId, n: nat, slot: SlotId)
    requires exists m: nat :: m < k && CallingAt(states, m, a, n, slot)
    ensures exists m: nat :: m < k + 1 && CallingAt(states, m, a, n, slot)
  {
    hide CallingAt;
    var m: nat :| m < k && CallingAt(states, m, a, n, slot);
    assert m < k + 1;
  }

  /** What one action of a turn leads to. */
  lemma TurnOutcome(s: State, x: Activity)
    requires x.Emitting? && x.turn.Visit?
    ensures var slot, check := x.turn.slot, x.turn.check;
            var y, gone := NextTurn(s, x, slot, check), check.Expired? || check.Awaiting?;
            if y.Emitting? && y.turn.Visit? then
              && SameVisit(x, y)
              && (y.turn.check.Expired? || y.turn.check.Awaiting? <==> gone || Fails(s, slot, check))
            else
              y == EndTurn(x, slot, check == Calling) && (check != Calling <==> gone || Fails(s, slot, check))
  {
  }

  lemma TurnVerdicts(states: seq<State>, labels: seq<Label>, k: nat, a: ActivityId, x: Activity)
    requires Verdicts(states, labels, k, a, x) && Acted(states, labels, k, a) && states[k].acts[a] == x
    ensures Verdicts(states, labels, k + 1, a, NextTurn(states[k], x, x.turn.slot, x.turn.check))
  {
    hide Failed, CallingAt, FailedAt, NextTurn, EndTurn, Fails;
    var s, n, slot, check := states[k], |x.log|, x.turn.slot, x.turn.check;
    var y := NextTurn(s, x, slot, check);
    TurnOutcome(s, x);
    TurnFails(states, labels, k, a, x);
    FailedGrows(states, labels, k, a, n);
    if !(y.Emitting? && y.turn.Visit?) { EndMeans(x, slot, check == Calling); }
    forall i | 0 <= i < n
      ensures x.log[i].called <==> !Failed(states, labels, k + 1, a, i)
      ensures x.log[i].called ==> exists m: nat :: m < k + 1 && CallingAt(states, m, a, i, x.log[i].slot)
    {
      FailedGrows(states, labels, k, a, i);
      if x.log[i].called { LaterCall(states, k, a, i, x.log[i].slot); }
    }
    if check == Calling { CallsNow(states, k, a, x); }
  }

  lemma TurnFails(states: seq<State>, labels: seq<Label>, k: nat, a: ActivityId, x: Activity)
    requires Acted(states, labels, k, a) && states[k].acts[a] == x
    ensures FailedAt(states, labels, k, a, |x.log|) <==> Fails(states[k], x.turn.slot, x.turn.check)
    ensures forall i: nat :: i < |x.log| ==> !FailedAt(states, labels, k, a, i)
  {
    hide Fails;
  }

  lemma EndMeans(x: Activity, slot: SlotId, called: bool)
    requires x.Emitting?
    ensures var y := EndTurn(x, slot, called);
            y.Emitting? && y.turn.Fetch? && y.log == x.log + [Outcome(slot, called)]
  {
  }

  lemma CallsNow(states: seq<State>, k: nat, a: ActivityId, x: Activity)
    requires k < |states| && a in states[k].acts && states[k].acts[a] == x
    requires x.Emitting? && x.turn.Visit? && x.turn.check == Calling
    ensures exists m: nat :: m < k + 1 && CallingAt(states, m, a, |x.log|, x.turn.slot)
  {
    assert CallingAt(states, k, a, |x.log|, x.turn.slot);
  }

  /** The first slot of a turn, or a step between turns: the log is the same and nothing has been checked. */
  lemma FetchVerdicts(states: seq<State>, labels: seq<Label>, k: nat, a: ActivityId, x: Activity, y: Activity)
    requires Verdicts(states, labels, k, a, x) && !Acted(states, labels, k, a)
    requires x.Emitting? && x.turn.Fetch? && y.Emitting? && y.log == x.log
    requires y.turn.Visit? ==> y.turn.check == CheckConnected
    ensures Verdicts(states, labels, k + 1, a, y)
  {
    QuietVerdicts(states, labels, k, a, x);
    Unchecked(states, labels, k + 1, a, x);
    hide Failed, CallingAt, Acted;
  }

  lemma Unchecked(states: seq<State>, labels: seq<Label>, k: nat, a: ActivityId, x: Activity)
    requires x.Emitting? && x.turn.Fetch? && TurnsKnown(states, labels, k, a, x)
    ensures !Failed(states, labels, k, a, |x.log|)
  {
  }

  /** An emission that starts has checked nothing. */
  lemma StartVerdicts(states: seq<State>, labels: seq<Label>, k: nat, a: ActivityId, y: Activity)
    requires forall e: nat :: e < k ==> !Acted(states, labels, e, a)
    requires !y.Emitting? || (y.turn.Fetch? && y.log == [])
    ensures Verdicts(states, labels, k, a, y)
  {
    hide Acted;
  }

  lemma {:induction false} IdsGrow(states: seq<State>, labels: seq<Label>, j: nat, k: nat)
    requires Run(states, labels) && j <= k < |states|
    ensures states[j].nextAct <= states[k].nextAct
    decreases k
  {
    hide Inv, After, Enabled, Grows, OwnStep;
    if j == k {
    } else {
      IdsGrow(states, labels, j, k - 1);
      InvRun(states, labels, k - 1);
      StepFollows(states[k - 1], labels[k - 1]);
    }
  }

  /** An activity that is new in state k has not acted before. */
  lemma NewbornHasNotActed(states: seq<State>, labels: seq<Label>, k: nat, a: ActivityId, e: nat)
    requires Run(states, labels) && k < |states| && states[k].nextAct <= a && e <= k
    ensures !Acted(states, labels, e, a)
  {
    hide Run, Inv;
    RunLengths(states, labels);
    InvRun(states, labels, e);
    IdsGrow(states, labels, e, k);
    if a in states[e].acts { KnownId(states[e], a); }
  }

  lemma {:induction false} RunVerdicts(states: seq<State>, labels: seq<Label>, k: nat, a: ActivityId)
    requires Run(states, labels) && k < |states| && a in states[k].acts
    ensures Verdicts(states, labels, k, a, states[k].acts[a])
    decreases k
  {
    hide Inv, After, Enabled, Verdicts, Grows, NextTurn, ViewOf;
    if k == 0 { return; }
    var s, l, y := states[k - 1], labels[k - 1], states[k].acts[a];
    InvRun(states, labels, k - 1);
    StepFollows(s, l);
    if a !in s.acts {
      forall e: nat | e < k ensures !Acted(states, labels, e, a) {
        NewbornHasNotActed(states, labels, k - 1, a, e);
      }
      StartVerdicts(states, labels, k, a, y);
    } else {
      var x := s.acts[a];
      RunVerdicts(states, labels, k - 1, a);
      if l != Act(a) {
        QuietVerdicts(states, labels, k - 1, a, x);
      } else {
        OwnVerdicts(states, labels, k - 1, a, x, y);
      }
    }
  }

  lemma OwnVerdicts(states: seq<State>, labels: seq<Label>, k: nat, a: ActivityId, x: Activity, y: Activity)
    requires k < |labels| && k < |states| && labels[k] == Act(a) && a in states[k].acts && states[k].acts[a] == x
    requires Verdicts(states, labels, k, a, x) && OwnStep(states[k], x, y)
    ensures Verdicts(states, labels, k + 1, a, y)
  {
    hide NextTurn, ViewOf, Failed, CallingAt;
    if x.Emitting? && x.turn.Visit? {
      TurnVerdicts(states, labels, k, a, x);
    } else if x.Emitting? && y.Emitting? {
      FetchVerdicts(states, labels, k, a, x, y);
    } else if !x.Emitting? {
      StartVerdicts(states, labels, k + 1, a, y);
    }
  }

  /** Turn number i of an emission called its slot if and only if every check the turn made passed: the slot
  was found connected, unblocked and, if it tracks an object, the object alive and the slot still connected.
  All checks of the turn were made of that slot, and a turn that called made all of them. */
  lemma CalledIffChecksPassed(states: seq<State>, labels: seq<Label>, k: nat, a: ActivityId, i: nat)
    requires Run(states, labels) && k < |states| && a in states[k].acts && states[k].acts[a].Emitting?
    requires i < |states[k].acts[a].log|
    ensures var o := states[k].acts[a].log[i];
            && (o.called <==> forall e: nat :: e < k ==> !FailedAt(states, labels, e, a, i))
            && (forall e: nat :: e < k && Acted(states, labels, e, a) && |states[e].acts[a].log| == i ==>
                  states[e].acts[a].turn.slot == o.slot)
            && (o.called ==> exists m: nat :: m < k && CallingAt(states, m, a, i, o.slot) && AllPassed(states, m, a))
  {
    hide Run, FailedAt, Acted, CallingAt, AllPassed;
    RunVerdicts(states, labels, k, a);
    var o := states[k].acts[a].log[i];
    if o.called {
      var m: nat :| m < k && CallingAt(states, m, a, i, o.slot);
      CalledAllPassed(states, labels, m, a, i, o.slot);
    }
  }

  /** The checks behind a callback that runs in state m. */
  ghost predicate AllPassed(states: seq<State>, m: nat, a: ActivityId) {
    && m < |states| && a in states[m].acts && states[m].acts[a].Emitting? && states[m].acts[a].turn.Visit?
    && var x := states[m].acts[a];
    && (exists b :: FoundConnected(states, m, a, x, b))
    && (exists c :: FoundUnblocked(states, m, a, x, c))
    && (x.turn.slot in states[m].tracks ==>
          && (exists d :: FoundAlive(states, m, a, x, d))
          && (exists e :: FoundStillConnected(states, m, a, x, e)))
  }

  lemma CalledAllPassed(states: seq<State>, labels: seq<Label>, m: nat, a: ActivityId, n: nat, slot: SlotId)
    requires Run(states, labels) && CallingAt(states, m, a, n, slot)
    ensures AllPassed(states, m, a)
  {
    hide Run, FoundConnected, FoundUnblocked, FoundAlive, FoundStillConnected;
    CalledOnlyIf(states, labels, m, a, slot);
  }
}
