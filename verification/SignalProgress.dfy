/** Every action of a running call brings the running calls closer to their end. */
module SignalProgress {
  import opened Wrappers
  import opened SlotTable
  import opened SignalProtocol
  import opened SignalMemory
  import opened SignalSlots
  import opened SignalInvariant
  import opened SignalRuns
  import opened SignalTheorems

  // ----- work left to do

  /** Actions a reader has left before it holds its snapshot outside the mutex. */
  function BeforeLoop(x: Activity): nat {
    match x
    case Entering => 4
    case Asking(_) => 3
    case Referencing(_) => 2
    case Leaving(_, _) => 1
    case _ => 0
  }

  /** How far a turn has come. */
  function Progress(turn: Turn): nat {
    match turn
    case Fetch => 0
    case Visit(_, check) =>
      match check
      case CheckConnected => 1
      case CheckBlocked => 2
      case LockObject => 3
      case CheckAgain => 4
      case Calling => 5
      case Expired => 4
      case Awaiting(_) => 5
  }

  function Minus(a: nat, b: nat): nat { if a > b then a - b else 0 }

  /** A bound on the actions an emission or slot_count has left in its loop. */
  function InLoop(x: Activity): nat {
    match x
    case Emitting(v, g, _, turn, log) =>
      Minus(2 + Minus(|v.snap|, g) + 10 * Minus(|Flatten(v.snap)|, |log|), Progress(turn))
    case Counting(v, g, _) => 2 + Minus(|v.snap|, g)
    case _ => 0
  }

  /** Actions a writer, or a reader that must delete, has left. */
  function ToWrite(x: Activity): nat {
    match x
    case Writing(_, phase) =>
      (match phase
       case Waiting => 10
       case Testing => 9
       case Duplicating => 8
       case Duplicated(_) => 7
       case Swapped(_) => 6
       case Discarding(_) => 5
       case Ready => 4
       case Destroying(_) => 3
       case Mutated => 2
       case Returning => 1)
    case Freeing(_) => 1
    case _ => 0
  }

  /** The sum of a weight over the activities below n. */
  function Sum(acts: map<ActivityId, Activity>, n: nat, weigh: Activity -> nat): nat {
    if n == 0 then 0 else Sum(acts, n - 1, weigh) + if n - 1 in acts then weigh(acts[n - 1]) else 0
  }

  function WeightAt(acts: map<ActivityId, Activity>, a: ActivityId, weigh: Activity -> nat): nat {
    if a in acts then weigh(acts[a]) else 0
  }

  /** When only activity a changes, the sum changes by its weight. */
  lemma {:induction false} SumChange(
    before: map<ActivityId, Activity>, after: map<ActivityId, Activity>, n: nat, a: ActivityId, weigh: Activity -> nat)
    requires forall b :: 0 <= b < n && b != a ==> (b in before <==> b in after)
    requires forall b :: 0 <= b < n && b != a && b in before && b in after ==> after[b] == before[b]
    ensures a < n ==>
              Sum(after, n, weigh) + WeightAt(before, a, weigh) == Sum(before, n, weigh) + WeightAt(after, a, weigh)
    ensures a >= n ==> Sum(after, n, weigh) == Sum(before, n, weigh)
  {
    if n == 0 {
    } else {
      SumChange(before, after, n - 1, a, weigh);
    }
  }

  lemma {:induction false} SumExtend(acts: map<ActivityId, Activity>, n: nat, m: nat, weigh: Activity -> nat)
    requires n <= m && forall b :: n <= b < m && b in acts ==> weigh(acts[b]) == 0
    ensures Sum(acts, m, weigh) == Sum(acts, n, weigh)
    decreases m
  {
    if n == m {
    } else {
      SumExtend(acts, n, m - 1, weigh);
    }
  }

  /** The change of a sum over one action. */
  lemma SumStep(s: State, a: ActivityId, t: State, weigh: Activity -> nat)
    requires a in s.acts && a < s.nextAct && Follows(s, Act(a), t)
    requires forall b :: b in t.acts && b !in s.acts ==> weigh(t.acts[b]) == 0
    requires forall b :: b in s.acts ==> b < s.nextAct
    ensures Sum(t.acts, t.nextAct, weigh) + weigh(s.acts[a])
         == Sum(s.acts, s.nextAct, weigh) + WeightAt(t.acts, a, weigh)
  {
    hide OwnStep, Sum, Newborn;
    SumChange(s.acts, t.acts, s.nextAct, a, weigh);
    SumExtend(t.acts, s.nextAct, t.nextAct, weigh);
  }

  // ----- each action leaves its activity less to do

  /** A visited slot is within the snapshot. */
  lemma RoomToVisit(x: Activity)
    requires x.Emitting? && x.turn.Visit? && CursorOk(x)
    ensures |x.log| < |Flatten(x.view.snap)|
  {
    hide Flatten;
    FlattenAt(x.view.snap, x.g, x.i);
  }

  lemma TurnShrinks(s: State, x: Activity)
    requires x.Emitting? && x.turn.Visit? && CursorOk(x)
    ensures var y := NextTurn(s, x, x.turn.slot, x.turn.check); y.Emitting? && InLoop(y) < InLoop(x)
  {
    RoomToVisit(x);
    hide CursorOk, Flatten;
    var f, n := |Flatten(x.view.snap)|, |x.log|;
    match x.turn.check
    case CheckConnected =>
    case CheckBlocked =>
    case LockObject =>
    case CheckAgain =>
    case Calling =>
    case Expired =>
    case Awaiting(_) =>
  }

  /** Activity a has less to do in t than x had: of what comes first, and none of what came before. */
  ghost predicate Advances(x: Activity, t: State, a: ActivityId) {
    if BeforeLoop(x) > 0 then WeightAt(t.acts, a, BeforeLoop) < BeforeLoop(x)
    else if InLoop(x) > 0 then WeightAt(t.acts, a, BeforeLoop) == 0 && WeightAt(t.acts, a, InLoop) < InLoop(x)
    else
      && WeightAt(t.acts, a, BeforeLoop) == 0 && WeightAt(t.acts, a, InLoop) == 0
      && WeightAt(t.acts, a, ToWrite) < ToWrite(x)
  }

  lemma WriterAdvances(s: State, a: ActivityId, op: Op, phase: WritePhase)
    requires a in s.acts && s.acts[a] == Writing(op, phase) && !Faults(s, s.acts[a])
    requires var t := Touched(s, Writing(op, phase)); t.Some? ==> t.value in s.heap
    ensures Advances(s.acts[a], WriteStep(s, a, op, phase), a)
  {
    hide Mutate, Flatten, Dropped;
    match phase
    case Waiting =>
    case Testing =>
    case Duplicating =>
    case Duplicated(_) =>
    case Swapped(_) =>
    case Discarding(_) =>
    case Ready =>
    case Destroying(_) =>
    case Mutated =>
    case Returning =>
  }

  /** After its reference is gone, all a reader has left is a deletion. */
  lemma ReleaseAdvances(s: State, a: ActivityId, p: PayloadId)
    requires a in s.acts && p in s.heap && s.heap[p].count > 0 && BeforeLoop(s.acts[a]) == 0 && InLoop(s.acts[a]) > 0
    ensures Advances(s.acts[a], Release(s, a, p), a)
  {
    hide Release, Flatten;
    ReleaseActs(s, a, p);
  }

  lemma FetchAdvances(s: State, a: ActivityId)
    requires a in s.acts && s.acts[a].Emitting? && s.acts[a].turn.Fetch? && CursorOk(s.acts[a])
    requires s.acts[a].view.p in s.heap && s.heap[s.acts[a].view.p].count > 0
    requires s.heap[s.acts[a].view.p].groups == s.acts[a].view.snap
    ensures Advances(s.acts[a], EmitStep(s, a, s.acts[a]), a)
  {
    hide Release, Flatten, CursorOk;
    var x := s.acts[a];
    var groups := x.view.snap;
    if x.g >= |groups| {
      ReleaseAdvances(s, a, x.view.p);
    } else if x.i < |groups[x.g].slts| {
      var y := x.(turn := Visit(groups[x.g].slts[x.i], CheckConnected));
      assert EmitStep(s, a, x).acts[a] == y;
    } else {
      assert EmitStep(s, a, x).acts[a] == x.(g := x.g + 1, i := 0);
    }
  }

  lemma CountAdvances(s: State, a: ActivityId)
    requires a in s.acts && s.acts[a].Counting?
    requires s.acts[a].view.p in s.heap && s.heap[s.acts[a].view.p].count > 0
    requires s.heap[s.acts[a].view.p].groups == s.acts[a].view.snap
    ensures Advances(s.acts[a], CountStep(s, a, s.acts[a]), a)
  {
    hide Release, Flatten;
    var x := s.acts[a];
    if x.g >= |x.view.snap| { ReleaseAdvances(s, a, x.view.p); }
  }

  lemma VisitAdvances(s: State, a: ActivityId)
    requires a in s.acts && s.acts[a].Emitting? && s.acts[a].turn.Visit? && CursorOk(s.acts[a])
    ensures Advances(s.acts[a], VisitStep(s, a, s.acts[a], s.acts[a].turn.slot, s.acts[a].turn.check), a)
  {
    hide NextTurn, Flatten, CursorOk, InLoop;
    TurnShrinks(s, s.acts[a]);
  }

  lemma EnterAdvances(s: State, a: ActivityId)
    requires a in s.acts && !s.acts[a].Writing? && !s.acts[a].Emitting? && !s.acts[a].Counting?
    requires var t := Touched(s, s.acts[a]); t.Some? ==> t.value in s.heap
    ensures Advances(s.acts[a], ReadStep(s, a, s.acts[a]), a)
  {
    hide Flatten;
    match s.acts[a]
    case Freeing(_) =>
    case Entering =>
    case Asking(_) =>
    case Referencing(_) =>
    case Leaving(_, _) =>
  }

  lemma ActAdvances(s: State, a: ActivityId)
    requires Inv(s) && Enabled(s, Act(a))
    ensures Advances(s.acts[a], After(s, Act(a)), a)
  {
    hide MemoryInv, SlotsInv, CursorsInv, PinsInv, WriteStep, CountStep, VisitStep, After;
    hide Advances, Held, HasMutex, UnknownSlot, ActOk;
    var x := s.acts[a];
    ActUnfolds(s, a);
    MemoryParts(s, a);
    KnownSlot(s, a);
    CursorIsOk(s, a);
    if x.Writing? {
      WriterFacts(x.op, x.phase);
      if x.phase.Swapped? { HeldCounts(s, a, x.phase.replaced); }
      WriterAdvances(s, a, x.op, x.phase);
    } else if x.Emitting? && x.turn.Visit? {
      VisitAdvances(s, a);
    } else {
      ReaderFacts(x);
      if x.Emitting? || x.Counting? {
        HeldCounts(s, a, x.view.p);
        ViewIntact(s, a);
        if x.Emitting? { FetchAdvances(s, a); } else { CountAdvances(s, a); }
      } else {
        EnterAdvances(s, a);
      }
    }
  }

  lemma CursorIsOk(s: State, a: ActivityId)
    requires CursorsInv(s) && a in s.acts
    ensures CursorOk(s.acts[a])
  {
  }

  lemma ViewIntact(s: State, a: ActivityId)
    requires MemoryInv(s) && a in s.acts && (s.acts[a].Emitting? || s.acts[a].Counting?)
    ensures s.acts[a].view.p in s.heap && s.heap[s.acts[a].view.p].groups == s.acts[a].view.snap
  {
    hide MemoryInv;
    MemoryParts(s, a);
  }

  // ----- the work of all running calls

  /** The work left in a state: of readers before their loops, in loops, and of writers and deletions. */
  function Readers(s: State): nat { Sum(s.acts, s.nextAct, BeforeLoop) }

  function Loops(s: State): nat { Sum(s.acts, s.nextAct, InLoop) }

  function Writers(s: State): nat { Sum(s.acts, s.nextAct, ToWrite) }

  /** Every action of a running call lowers the work left, in lexicographic order. An emission may start a
  cleanup, and a reader may find a longer list, but only at the cost of what comes first. */
  lemma EveryActionCounts(s: State, a: ActivityId)
    requires Inv(s) && Enabled(s, Act(a))
    ensures var t := After(s, Act(a));
            || Readers(t) < Readers(s)
            || (Readers(t) == Readers(s) && Loops(t) < Loops(s))
            || (Readers(t) == Readers(s) && Loops(t) == Loops(s) && Writers(t) < Writers(s))
  {
    hide Inv, After, Sum, InLoop, OwnStep;
    var x, t := s.acts[a], After(s, Act(a));
    ActAdvances(s, a);
    StepFollows(s, Act(a));
    Ids(s);
    NewWritersWeigh(s, a, t);
    SumStep(s, a, t, BeforeLoop);
    SumStep(s, a, t, InLoop);
    LoopWeight(x);
    if BeforeLoop(x) == 0 && InLoop(x) == 0 {
      NoNewActivity(s, a);
      SumStep(s, a, t, ToWrite);
    }
  }

  lemma Ids(s: State)
    requires Inv(s)
    ensures forall b :: b in s.acts ==> b < s.nextAct
  {
    hide MemoryInv, SlotsInv, CursorsInv, PinsInv;
    FreshIds(s);
  }

  lemma NewWritersWeigh(s: State, a: ActivityId, t: State)
    requires Follows(s, Act(a), t)
    ensures forall b :: b in t.acts && b !in s.acts ==> BeforeLoop(t.acts[b]) == 0 && InLoop(t.acts[b]) == 0
  {
    hide OwnStep, Flatten;
  }

  lemma LoopWeight(x: Activity)
    ensures (x.Emitting? && (x.turn.Visit? ==> |x.log| < |Flatten(x.view.snap)|)) || x.Counting? ==> InLoop(x) > 0
  {
    hide Flatten;
  }

  /** Writers and deletions start nothing. */
  lemma NoNewActivity(s: State, a: ActivityId)
    requires Inv(s) && Enabled(s, Act(a)) && BeforeLoop(s.acts[a]) == 0 && InLoop(s.acts[a]) == 0
    ensures forall b :: b in After(s, Act(a)).acts ==> b in s.acts
  {
    hide MemoryInv, SlotsInv, CursorsInv, PinsInv, WriteStep, After, UnknownSlot, Flatten;
    var x := s.acts[a];
    ActUnfolds(s, a);
    CursorIsOk(s, a);
    if x.Writing? {
      WriterFrame(s, a, x.op, x.phase);
    } else {
      if x.Emitting? && x.turn.Visit? { RoomToVisit(x); }
      LoopWeight(x);
    }
  }
}
