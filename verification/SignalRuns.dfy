/** What holds over every run of the signal, whatever the schedule and whatever callbacks do. */
module SignalRuns {
  import opened Wrappers
  import opened SlotTable
  import opened SignalProtocol
  import opened SignalMemory
  import opened SignalSlots
  import opened SignalInvariant

  // ----- how one transition moves one activity

  /** How an activity x may look after its own action in state s, if it goes on. */
  ghost predicate OwnStep(s: State, x: Activity, y: Activity) {
    && (x.Writing? ==> y.Writing?) && !x.Freeing?
    && (!x.Emitting? && y.Emitting? ==> y.turn.Fetch? && y.log == [])
    && (x.Emitting? && x.turn.Visit? ==> y == NextTurn(s, x, x.turn.slot, x.turn.check))
    && (x.Emitting? ==> y.Emitting? || y.Freeing?)
    && (x.Emitting? && x.turn.Fetch? && y.Emitting? ==> y.log == x.log)
    && (x.Emitting? && x.turn.Fetch? && y.Emitting? && y.turn.Visit? ==>
          y == x.(turn := Visit(y.turn.slot, CheckConnected)))
    && (ViewOf(x).Some? ==> y.Freeing? || ViewOf(y) == ViewOf(x))
  }

  predicate Newborn(x: Activity) { (x.Writing? && x.phase.Waiting?) || x.Entering? || x.Asking? }

  /** Activities change only by their own actions; identities are not reused. */
  ghost predicate Follows(s: State, l: Label, t: State) {
    && s.nextAct <= t.nextAct
    && (forall a :: a in s.acts && l != Act(a) ==> a in t.acts && t.acts[a] == s.acts[a])
    && (forall a :: a in t.acts && a in s.acts && l == Act(a) ==> OwnStep(s, s.acts[a], t.acts[a]))
    && (forall a :: a in t.acts && a !in s.acts ==> s.nextAct <= a && Newborn(t.acts[a]))
    && (l.Act? ==> forall a :: a in t.acts && a !in s.acts ==> t.acts[a].Writing?)
  }

  /** What only grows, and what an action of an activity does not touch. */
  ghost predicate Grows(s: State, l: Label, t: State) {
    && s.disconnected <= t.disconnected && s.added <= t.added
    && (!l.Expire? ==> t.expired == s.expired)
    && (l.Act? ==> t.parent == s.parent && t.signalBlocked == s.signalBlocked && t.blocked == s.blocked)
    && (!l.CallConnect? ==> t.tracks == s.tracks && t.group == s.group)
  }

  lemma PutFollows(s: State, t: State, a: ActivityId, y: Activity)
    requires a in s.acts && t.acts == s.acts[a := y] && t.nextAct == s.nextAct && OwnStep(s, s.acts[a], y)
    ensures Follows(s, Act(a), t)
  {
    hide OwnStep;
  }

  lemma GoneFollows(s: State, t: State, a: ActivityId)
    requires a in s.acts && t.acts == s.acts - {a} && t.nextAct == s.nextAct
    ensures Follows(s, Act(a), t)
  {
    hide OwnStep;
  }

  lemma WriteFollows(s: State, a: ActivityId, op: Op, phase: WritePhase)
    requires a in s.acts && s.acts[a] == Writing(op, phase)
    requires var t := Touched(s, Writing(op, phase)); t.Some? ==> t.value in s.heap
    requires !Faults(s, Writing(op, phase))
    ensures Follows(s, Act(a), WriteStep(s, a, op, phase))
    ensures Grows(s, Act(a), WriteStep(s, a, op, phase))
  {
    WriteGrows(s, a, op, phase);
    hide WriteStep, Faults;
    var t := WriteStep(s, a, op, phase);
    WriterActs(s, a, op, phase);
    if phase.Returning? {
      GoneFollows(s, t, a);
    } else {
      PutFollows(s, t, a, t.acts[a]);
    }
  }

  /** What no writer changes. */
  function Surroundings(s: State)
    : (map<SlotId, int>, map<SlotId, ObjectId>, set<SlotId>, set<ObjectId>, nat, map<ActivityId, ActivityId>, bool,
       set<SlotId>)
  {
    (s.group, s.tracks, s.disconnected, s.expired, s.nextAct, s.parent, s.signalBlocked, s.blocked)
  }

  lemma WriteGrows(s: State, a: ActivityId, op: Op, phase: WritePhase)
    requires var t := Touched(s, Writing(op, phase)); t.Some? ==> t.value in s.heap
    ensures var t := WriteStep(s, a, op, phase); Surroundings(t) == Surroundings(s) && s.added <= t.added
  {
    hide WriteStep, UnknownSlot;
    if phase.Ready? { ReadyGrows(s, a, op); } else { QuietGrows(s, a, op, phase); }
  }

  lemma ReadyGrows(s: State, a: ActivityId, op: Op)
    requires s.cur in s.heap
    ensures var t := WriteStep(s, a, op, Ready); Surroundings(t) == Surroundings(s) && s.added <= t.added
  {
    hide Mutate, Dropped;
    if !UnknownSlot(s, Writing(op, Ready)) {
      MutateFrame(s, op);
      MutateGrows(s, op);
    }
  }

  lemma QuietGrows(s: State, a: ActivityId, op: Op, phase: WritePhase)
    requires !phase.Ready?
    requires var t := Touched(s, Writing(op, phase)); t.Some? ==> t.value in s.heap
    ensures var t := WriteStep(s, a, op, phase); Surroundings(t) == Surroundings(s) && s.added == t.added
  {
    if phase.Swapped? || phase.Discarding? || phase.Duplicating? || phase.Duplicated? {
      CopyGrows(s, a, op, phase);
    } else {
      match phase
      case Waiting =>
      case Testing =>
      case Destroying(_) =>
      case Mutated =>
      case Returning =>
    }
  }

  lemma CopyGrows(s: State, a: ActivityId, op: Op, phase: WritePhase)
    requires phase.Swapped? || phase.Discarding? || phase.Duplicating? || phase.Duplicated?
    requires var t := Touched(s, Writing(op, phase)); t.Some? ==> t.value in s.heap
    ensures var t := WriteStep(s, a, op, phase); Surroundings(t) == Surroundings(s) && s.added == t.added
  {
    hide Put, SetPayload, Delete, Surroundings;
    match phase
    case Swapped(p) =>
      var c := s.heap[p].count;
      if c == 0 {
        FaultSame(s);
      } else {
        PayloadSame(s, p, s.heap[p].(count := c - 1));
        PutSame(SetPayload(s, p, s.heap[p].(count := c - 1)), a, Writing(op, if c == 1 then Discarding(p) else Ready));
      }
    case Discarding(p) =>
      PayloadSame(s, p, s.heap[p]);
      PutSame(Delete(s, p), a, Writing(op, Ready));
    case Duplicating =>
      var n, q := s.nextPayload, Payload(1, s.heap[s.cur].groups);
      PayloadSame(s, n, q);
      NumberSame(SetPayload(s, n, q), n + 1, s.cur);
      PutSame(SetPayload(s, n, q).(nextPayload := n + 1), a, Writing(op, Duplicated(n)));
    case Duplicated(n) =>
      NumberSame(s, s.nextPayload, n);
      PutSame(s.(cur := n), a, Writing(op, Swapped(s.cur)));
  }

  lemma PutSame(s: State, a: ActivityId, x: Activity)
    ensures Surroundings(Put(s, a, x)) == Surroundings(s) && Put(s, a, x).added == s.added
  {
  }

  lemma PayloadSame(s: State, p: PayloadId, q: Payload)
    ensures Surroundings(SetPayload(s, p, q)) == Surroundings(s) && SetPayload(s, p, q).added == s.added
    ensures Surroundings(Delete(s, p)) == Surroundings(s) && Delete(s, p).added == s.added
    ensures SetPayload(s, p, q).cur == s.cur
  {
  }

  lemma NumberSame(s: State, n: nat, c: PayloadId)
    ensures var t := s.(nextPayload := n); Surroundings(t) == Surroundings(s) && t.added == s.added
    ensures var t := s.(cur := c); Surroundings(t) == Surroundings(s) && t.added == s.added
  {
  }

  lemma FaultSame(s: State)
    ensures var t := s.(fault := true); Surroundings(t) == Surroundings(s) && t.added == s.added
  {
  }

  lemma MutateGrows(s: State, op: Op)
    requires s.cur in s.heap && (op.CleanUp? ==> op.slot in s.index)
    requires op.Add? || op.CleanUp? ==> op.slot in s.group
    ensures s.added <= Mutate(s, op).added
  {
    hide AddSlot, Clean, DisconnectIf, DisconnectGroup, Flatten;
  }

  lemma ReleaseFollows(s: State, a: ActivityId, p: PayloadId)
    requires a in s.acts && p in s.heap && s.heap[p].count > 0 && (s.acts[a].Emitting? || s.acts[a].Counting?)
    requires s.acts[a].Emitting? ==> s.acts[a].turn.Fetch?
    ensures Follows(s, Act(a), Release(s, a, p)) && Grows(s, Act(a), Release(s, a, p))
  {
    hide Follows;
    var t := Release(s, a, p);
    if s.heap[p].count == 1 {
      PutFollows(s, t, a, Freeing(p));
    } else {
      GoneFollows(s, t, a);
    }
  }

  lemma VisitFollows(s: State, a: ActivityId)
    requires a in s.acts && s.acts[a].Emitting? && s.acts[a].turn.Visit? && forall b :: b in s.acts ==> b < s.nextAct
    ensures var t := VisitStep(s, a, s.acts[a], s.acts[a].turn.slot, s.acts[a].turn.check);
            Follows(s, Act(a), t) && Grows(s, Act(a), t)
  {
    hide NextTurn, ViewOf, Follows;
    var x := s.acts[a];
    var slot, check := x.turn.slot, x.turn.check;
    var t, y := VisitStep(s, a, x, slot, check), NextTurn(s, x, slot, check);
    TurnKeepsView(s, x, slot, check);
    ReaderFacts(x);
    ReaderFacts(y);
    if check.Expired? && slot !in s.disconnected {
      ExpiredFollows(s, t, a, y, Writing(CleanUp(slot), Waiting));
    } else {
      PutFollows(s, t, a, y);
    }
  }

  lemma ExpiredFollows(s: State, t: State, a: ActivityId, y: Activity, child: Activity)
    requires a in s.acts && t.acts == s.acts[s.nextAct := child][a := y] && t.nextAct == s.nextAct + 1
    requires OwnStep(s, s.acts[a], y) && child.Writing? && Newborn(child) && forall b :: b in s.acts ==> b < s.nextAct
    ensures Follows(s, Act(a), t)
  {
    hide OwnStep;
  }

  lemma FetchFollows(s: State, a: ActivityId)
    requires a in s.acts && s.acts[a].Emitting? && s.acts[a].turn.Fetch?
    requires s.acts[a].view.p in s.heap && s.heap[s.acts[a].view.p].count > 0
    ensures Follows(s, Act(a), EmitStep(s, a, s.acts[a])) && Grows(s, Act(a), EmitStep(s, a, s.acts[a]))
  {
    hide Follows, Release;
    var x := s.acts[a];
    var groups := s.heap[x.view.p].groups;
    if x.g >= |groups| {
      ReleaseFollows(s, a, x.view.p);
    } else if x.i >= |groups[x.g].slts| {
      PutFollows(s, EmitStep(s, a, x), a, x.(g := x.g + 1, i := 0));
    } else {
      PutFollows(s, EmitStep(s, a, x), a, x.(turn := Visit(groups[x.g].slts[x.i], CheckConnected)));
    }
  }

  lemma CountFollows(s: State, a: ActivityId)
    requires a in s.acts && s.acts[a].Counting? && s.acts[a].view.p in s.heap && s.heap[s.acts[a].view.p].count > 0
    ensures Follows(s, Act(a), CountStep(s, a, s.acts[a])) && Grows(s, Act(a), CountStep(s, a, s.acts[a]))
  {
    hide Follows, Release;
    var x := s.acts[a];
    if x.g >= |s.heap[x.view.p].groups| {
      ReleaseFollows(s, a, x.view.p);
    } else {
      var t := CountStep(s, a, x);
      PutFollows(s, t, a, t.acts[a]);
    }
  }

  lemma EnterFollows(s: State, a: ActivityId)
    requires a in s.acts && !s.acts[a].Writing? && !s.acts[a].Emitting? && !s.acts[a].Counting?
    requires var t := Touched(s, s.acts[a]); t.Some? ==> t.value in s.heap
    ensures Follows(s, Act(a), ReadStep(s, a, s.acts[a])) && Grows(s, Act(a), ReadStep(s, a, s.acts[a]))
  {
    EnterGrows(s, a);
    hide Follows, Grows;
    var x := s.acts[a];
    var t := ReadStep(s, a, x);
    match x
    case Freeing(_) => GoneFollows(s, t, a);
    case Entering => if s.signalBlocked { GoneFollows(s, t, a); } else { PutFollows(s, t, a, Asking(Emission)); }
    case Asking(purpose) => PutFollows(s, t, a, Referencing(purpose));
    case Referencing(purpose) => PutFollows(s, t, a, Leaving(purpose, View(s.cur, s.heap[s.cur].groups)));
    case Leaving(purpose, v) =>
      PutFollows(s, t, a, if purpose == Emission then Emitting(v, 0, 0, Fetch, []) else Counting(v, 0, 0));
  }

  lemma EnterGrows(s: State, a: ActivityId)
    requires a in s.acts && !s.acts[a].Writing? && !s.acts[a].Emitting? && !s.acts[a].Counting?
    requires var t := Touched(s, s.acts[a]); t.Some? ==> t.value in s.heap
    ensures Grows(s, Act(a), ReadStep(s, a, s.acts[a]))
  {
    hide Put, SetPayload, Delete, Finish, Surroundings, Grows;
    var x := s.acts[a];
    var t := ReadStep(s, a, x);
    match x {
      case Freeing(p) => PayloadSame(s, p, s.heap[p]); FinishSame(Delete(s, p), a);
      case Entering => FinishSame(s, a); PutSame(s, a, Asking(Emission));
      case Asking(purpose) => MutexSame(s, Some(a)); PutSame(s.(mutex := Some(a)), a, Referencing(purpose));
      case Referencing(purpose) =>
        var q := s.heap[s.cur];
        PayloadSame(s, s.cur, q.(count := q.count + 1));
        PutSame(SetPayload(s, s.cur, q.(count := q.count + 1)), a, Leaving(purpose, View(s.cur, q.groups)));
      case Leaving(purpose, v) =>
        MutexSame(s, None);
        PutSame(s.(mutex := None), a, if purpose == Emission then Emitting(v, 0, 0, Fetch, []) else Counting(v, 0, 0));
    }
    SameGrows(s, a, t);
  }

  lemma FinishSame(s: State, a: ActivityId)
    ensures Surroundings(Finish(s, a)) == Surroundings(s) && Finish(s, a).added == s.added
  {
  }

  lemma MutexSame(s: State, m: Option<ActivityId>)
    ensures Surroundings(s.(mutex := m)) == Surroundings(s) && s.(mutex := m).added == s.added
  {
  }

  lemma SameGrows(s: State, a: ActivityId, t: State)
    requires Surroundings(t) == Surroundings(s) && s.added <= t.added
    ensures Grows(s, Act(a), t)
  {
  }

  lemma ActFollows(s: State, a: ActivityId)
    requires Inv(s) && Enabled(s, Act(a))
    ensures Follows(s, Act(a), After(s, Act(a))) && Grows(s, Act(a), After(s, Act(a)))
  {
    hide MemoryInv, SlotsInv, CursorsInv, PinsInv, Follows, Grows, WriteStep;
    hide CountStep, VisitStep, After, Held, ViewOf, HasMutex, UnknownSlot;
    var x := s.acts[a];
    ActUnfolds(s, a);
    MemoryParts(s, a);
    KnownSlot(s, a);
    FreshIds(s);
    if x.Writing? {
      WriterFacts(x.op, x.phase);
      if x.phase.Swapped? { HeldCounts(s, a, x.phase.replaced); }
      WriteFollows(s, a, x.op, x.phase);
    } else if x.Emitting? && x.turn.Visit? {
      VisitFollows(s, a);
    } else {
      ReaderFacts(x);
      if x.Emitting? {
        HeldCounts(s, a, x.view.p);
        FetchFollows(s, a);
      } else if x.Counting? {
        HeldCounts(s, a, x.view.p);
        CountFollows(s, a);
      } else {
        EnterFollows(s, a);
      }
    }
  }

  lemma CallFollows(s: State, l: Label)
    requires Inv(s) && Enabled(s, l) && !l.Act?
    ensures Follows(s, l, After(s, l)) && Grows(s, l, After(s, l))
  {
    hide MemoryInv, SlotsInv, CursorsInv, PinsInv, Follows, Connected, After;
    FreshIds(s);
    var t := After(s, l);
    AfterIsEffect(s, l);
    match l
    case CallEmit(_) => SpawnFollows(s, l, t, Entering);
    case CallSlotCount(_) => SpawnFollows(s, l, t, Asking(Count));
    case CallConnect(slot, gid, obj, _) =>
      ConnectedFields(s, slot, gid, obj);
      SpawnFollows(s, l, t, Writing(Add(slot), Waiting));
    case CallBulk(op, _) => SpawnFollows(s, l, t, Writing(op, Waiting));
    case CallDisconnect(slot, _) =>
      if slot in s.disconnected {
        StillFollows(s, l, t);
      } else {
        SpawnFollows(s, l, t, Writing(CleanUp(slot), Waiting));
      }
    case SetBlocked(_, _) => StillFollows(s, l, t);
    case BlockSignal(_) => StillFollows(s, l, t);
    case Expire(_) => StillFollows(s, l, t);
  }

  lemma SpawnFollows(s: State, l: Label, t: State, x: Activity)
    requires !l.Act? && t.acts == s.acts[s.nextAct := x] && t.nextAct == s.nextAct + 1 && Newborn(x)
    requires forall a :: a in s.acts ==> a < s.nextAct
    ensures Follows(s, l, t)
  {
    hide OwnStep;
  }

  lemma StillFollows(s: State, l: Label, t: State)
    requires !l.Act? && t.acts == s.acts && t.nextAct == s.nextAct
    ensures Follows(s, l, t)
  {
    hide OwnStep;
  }

  lemma StepFollows(s: State, l: Label)
    requires Inv(s) && Enabled(s, l)
    ensures Follows(s, l, After(s, l)) && Grows(s, l, After(s, l))
  {
    hide Inv, Follows, Grows, After;
    if l.Act? { ActFollows(s, l.a); } else { CallFollows(s, l); }
  }

  // ----- the invariant holds in every run

  /** A callback's object stays alive: only lock() starts a pin, and expiry waits for pins to end. */
  lemma PinsStep(s: State, l: Label)
    requires Inv(s) && Enabled(s, l)
    ensures PinsInv(After(s, l))
  {
    hide MemoryInv, SlotsInv, CursorsInv, After, Follows, Grows;
    var t := After(s, l);
    StepFollows(s, l);
    forall a, obj | a in t.acts && Pins(t, t.acts[a], obj) ensures obj !in t.expired {
      PinKept(s, l, t, a, obj);
    }
    TracksKnown(s, l);
  }

  lemma TracksKnown(s: State, l: Label)
    requires s.tracks.Keys <= s.group.Keys && Enabled(s, l) && Grows(s, l, After(s, l))
    ensures After(s, l).tracks.Keys <= After(s, l).group.Keys
  {
    hide After, Connected;
    if l.CallConnect? {
      ConnectIs(s, l);
      ConnectedFields(s, l.slot, l.gid, l.tracked);
      assert s.group[l.slot := l.gid].Keys == s.group.Keys + {l.slot};
    }
  }

  lemma ConnectIs(s: State, l: Label)
    requires l.CallConnect? && Enabled(s, l)
    ensures After(s, l) == Connected(s, l.slot, l.gid, l.tracked).(parent := After(s, l).parent)
  {
  }

  lemma PinKept(s: State, l: Label, t: State, a: ActivityId, obj: ObjectId)
    requires Inv(s) && Enabled(s, l) && t == After(s, l) && Follows(s, l, t) && Grows(s, l, t)
    requires a in t.acts && Pins(t, t.acts[a], obj)
    ensures obj !in t.expired
  {
    hide MemoryInv, SlotsInv, CursorsInv, After, ViewOf, NextTurn, Pins;
    var y := t.acts[a];
    PinMeans(t, y, obj);
    var x := s.acts[a];
    if l == Act(a) {
      PinFrom(s, x, obj);
    } else {
      VisitedIsKnown(s, a);
      SameTracks(s, l, x.turn.slot);
      SamePin(s, t, x, obj);
      ExpireWaits(s, l, a, obj);
    }
  }

  lemma PinMeans(s: State, x: Activity, obj: ObjectId)
    ensures Pins(s, x, obj) <==>
              && x.Emitting? && x.turn.Visit? && (x.turn.check.CheckAgain? || x.turn.check.Calling?)
              && x.turn.slot in s.tracks && s.tracks[x.turn.slot] == obj
  {
  }

  lemma SameTracks(s: State, l: Label, slot: SlotId)
    requires Enabled(s, l) && slot in s.group && Grows(s, l, After(s, l))
    ensures slot in After(s, l).tracks <==> slot in s.tracks
    ensures slot in s.tracks ==> slot in After(s, l).tracks && After(s, l).tracks[slot] == s.tracks[slot]
  {
    hide After, Connected;
    if l.CallConnect? {
      ConnectIs(s, l);
      ConnectedFields(s, l.slot, l.gid, l.tracked);
    }
  }

  lemma SamePin(s: State, t: State, x: Activity, obj: ObjectId)
    requires Pins(t, x, obj)
    requires x.turn.slot in t.tracks <==> x.turn.slot in s.tracks
    requires x.turn.slot in s.tracks ==> t.tracks[x.turn.slot] == s.tracks[x.turn.slot]
    ensures Pins(s, x, obj)
  {
  }

  lemma ExpireWaits(s: State, l: Label, a: ActivityId, obj: ObjectId)
    requires PinsInv(s) && Enabled(s, l) && Grows(s, l, After(s, l)) && a in s.acts && Pins(s, s.acts[a], obj)
    ensures obj !in After(s, l).expired
  {
    if !l.Expire? { hide After; }
  }

  /** A pin after a check comes from a pin before it, or from lock() finding the object alive. */
  lemma PinFrom(s: State, x: Activity, obj: ObjectId)
    requires x.Emitting? && x.turn.Visit? && Pins(s, NextTurn(s, x, x.turn.slot, x.turn.check), obj)
    ensures Pins(s, x, obj) || obj !in s.expired
    ensures NextTurn(s, x, x.turn.slot, x.turn.check).turn.slot == x.turn.slot
  {
  }

  lemma VisitedIsKnown(s: State, a: ActivityId)
    requires SlotsInv(s) && CursorsInv(s) && a in s.acts
    ensures s.acts[a].Emitting? && s.acts[a].turn.Visit? ==> s.acts[a].turn.slot in s.group
  {
    hide SlotsInv, CursorsInv;
    if s.acts[a].Emitting? && s.acts[a].turn.Visit? {
      VisitedWasAdded(s, a);
      AddedKnown(s);
    }
  }

  lemma AddedKnown(s: State)
    requires SlotsInv(s)
    ensures forall slot :: slot in s.added ==> slot in s.group
  {
    hide TableInv, PendingInv, AddingInv, ViewsInv, Slots, Distinct;
    assert forall slot :: slot in s.added ==> slot in s.group.Keys;
  }

  /** Every transition keeps the whole invariant. */
  lemma InvStep(s: State, l: Label)
    requires Inv(s) && Enabled(s, l)
    ensures Inv(After(s, l))
  {
    hide MemoryInv, SlotsInv, CursorsInv, PinsInv, After, UnknownSlot;
    if l.Act? {
      KnownSlot(s, l.a);
      ActKeepsRest(s, l.a);
    } else {
      CallKeepsRest(s, l);
    }
    MemoryStep(s, l);
    PinsStep(s, l);
  }

  lemma InvInit()
    ensures Inv(INIT)
  {
    InitMemory();
    hide MemoryInv;
    assert Elems<SlotId>([]) == {};
  }

  lemma {:induction false} InvRun(states: seq<State>, labels: seq<Label>, k: nat)
    requires Run(states, labels) && k < |states|
    ensures Inv(states[k])
  {
    hide Inv, After, Enabled;
    if k == 0 {
      InvInit();
    } else {
      InvRun(states, labels, k - 1);
      InvStep(states[k - 1], labels[k - 1]);
    }
  }

  /** A run can be prolonged by any transition that is enabled in its last state. */
  lemma Extend(states: seq<State>, labels: seq<Label>, l: Label) returns (more: seq<State>, path: seq<Label>)
    requires Run(states, labels) && Enabled(states[|states| - 1], l)
    ensures Run(more, path) && more == states + [After(states[|states| - 1], l)] && path == labels + [l]
  {
    hide After, Enabled;
    more, path := states + [After(states[|states| - 1], l)], labels + [l];
    forall k | 0 <= k < |path| ensures Enabled(more[k], path[k]) && more[k + 1] == After(more[k], path[k]) {
      if k < |labels| { assert more[k] == states[k] && path[k] == labels[k] && more[k + 1] == states[k + 1]; }
    }
  }

  lemma RunLengths(states: seq<State>, labels: seq<Label>)
    requires Run(states, labels)
    ensures |states| == |labels| + 1
  {
  }
}
