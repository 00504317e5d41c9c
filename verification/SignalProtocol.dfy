/** The thread-safe signal as a state machine.

Every running call on a signal is an activity. One transition is one atomic action of one activity (a
mutex operation, a load or exchange of an atomic, one access to a payload) or one action of the
environment. User code runs inside calls: a callback, or the destructor of a slot's callable. It may start
further calls, which are activities too; the call it runs in does not go on before they have ended. So the
runs include every re-entrant and every multi-threaded schedule.
*/
module SignalProtocol {
  import opened Wrappers
  import opened SlotTable

  type ActivityId = nat
  type PayloadId = nat
  type ObjectId = nat

  /** A counted slot list of copy_on_write. */
  datatype Payload = Payload(count: nat, groups: seq<Group>)

  /** What a writer does inside its critical section. */
  datatype Op =
    | Add(slot: SlotId)
    | CleanUp(slot: SlotId)
    | RemoveIf(matching: set<SlotId>)
    | RemoveGroup(gid: int)
    | RemoveAll

  /** A writer: waiting for the mutex; before unique(); before the copy; holding the copy, then the replaced
  payload, as a temporary; before deleting it; before the mutation; running the destructors of slots that the
  mutation dropped; before unlocking; unlocked, before it returns. */
  datatype WritePhase =
    | Waiting
    | Testing
    | Duplicating
    | Duplicated(copy: PayloadId)
    | Swapped(replaced: PayloadId)
    | Discarding(replaced: PayloadId)
    | Ready
    | Destroying(dead: set<SlotId>)
    | Mutated
    | Returning

  /** A reader's reference: its payload, and the list that payload had when the reference was taken. */
  datatype View = View(p: PayloadId, snap: seq<Group>)

  /** One slot's turn: the checks of operator() and callSlot, in order. */
  datatype Check =
    | CheckConnected
    | CheckBlocked
    | LockObject
    | CheckAgain
    | Calling
    | Expired
    | Awaiting(child: ActivityId)

  datatype Turn = Fetch | Visit(slot: SlotId, check: Check)

  /** A finished turn, and whether the callback ran. */
  datatype Outcome = Outcome(slot: SlotId, called: bool)

  datatype Purpose = Emission | Count

  datatype Activity =
    | Writing(op: Op, phase: WritePhase)
    | Entering                                 // an emission, before it tests m_block
    | Asking(purpose: Purpose)                 // a reader waiting for the mutex
    | Referencing(purpose: Purpose)            // holds the mutex, before the count is raised
    | Leaving(purpose: Purpose, view: View)    // holds the mutex and a reference
    | Emitting(view: View, g: nat, i: nat, turn: Turn, log: seq<Outcome>)
    | Counting(view: View, g: nat, sum: nat)
    | Freeing(p: PayloadId)                    // dropped the last reference, before the delete

  /** The shared state. `added`, `bulk`, `cleaned` and `freed` record history: the slots ever added to the
  list, those removed by disconnect_if, disconnect(gid) or clear, the runs of clean, and the deletions.
  `parent` names the call whose user code started a call. `fault` records an access to a deleted payload, a
  second deletion, or a count dropped below zero. */
  datatype State = State(
    heap: map<PayloadId, Payload>, nextPayload: nat, cur: PayloadId,
    mutex: Option<ActivityId>, acts: map<ActivityId, Activity>, nextAct: nat,
    group: map<SlotId, int>, index: map<SlotId, nat>, tracks: map<SlotId, ObjectId>,
    disconnected: set<SlotId>, blocked: set<SlotId>, expired: set<ObjectId>, signalBlocked: bool,
    added: set<SlotId>, bulk: set<SlotId>, cleaned: seq<SlotId>, freed: seq<PayloadId>, fault: bool,
    parent: map<ActivityId, ActivityId>)

  const INIT := State(
    map[0 := Payload(1, [])], 1, 0,
    None, map[], 0,
    map[], map[], map[],
    {}, {}, {}, false,
    {}, {}, [], [], false,
    map[])

  // ----- small changes of state

  function Put(s: State, a: ActivityId, x: Activity): State { s.(acts := s.acts[a := x]) }

  function Finish(s: State, a: ActivityId): State { s.(acts := s.acts - {a}) }

  function Spawn(s: State, x: Activity): State {
    s.(acts := s.acts[s.nextAct := x], nextAct := s.nextAct + 1)
  }

  function SetPayload(s: State, p: PayloadId, q: Payload): State { s.(heap := s.heap[p := q]) }

  function Delete(s: State, p: PayloadId): State { s.(heap := s.heap - {p}, freed := s.freed + [p]) }

  /** SlotState::disconnect: only the call that flips the flag goes on to clean. */
  function Exchange(s: State, slot: SlotId): State {
    if slot in s.disconnected then s
    else Spawn(s.(disconnected := s.disconnected + {slot}), Writing(CleanUp(slot), Waiting))
  }

  // ----- what activities hold

  /** The payload an activity holds a counted reference to. */
  function Held(x: Activity): Option<PayloadId> {
    match x
    case Writing(_, Duplicated(p)) => Some(p)
    case Writing(_, Swapped(p)) => Some(p)
    case Leaving(_, v) => Some(v.p)
    case Emitting(v, _, _, _, _) => Some(v.p)
    case Counting(v, _, _) => Some(v.p)
    case _ => None
  }

  /** The payload an activity is about to delete. */
  function Doomed(x: Activity): Option<PayloadId> {
    match x
    case Writing(_, Discarding(p)) => Some(p)
    case Freeing(p) => Some(p)
    case _ => None
  }

  /** The payload whose memory the next action accesses. */
  function Touched(s: State, x: Activity): Option<PayloadId> {
    match x
    case Writing(_, phase) =>
      (match phase
       case Testing => Some(s.cur)
       case Duplicating => Some(s.cur)
       case Swapped(p) => Some(p)
       case Discarding(p) => Some(p)
       case Ready => Some(s.cur)
       case _ => None)
    case Referencing(_) => Some(s.cur)
    case Emitting(v, _, _, _, _) => Some(v.p)
    case Counting(v, _, _) => Some(v.p)
    case Freeing(p) => Some(p)
    case _ => None
  }

  predicate WantsMutex(x: Activity) {
    (x.Writing? && x.phase.Waiting?) || x.Asking?
  }

  predicate HasMutex(x: Activity) {
    (x.Writing? && !x.phase.Waiting? && !x.phase.Returning?) || x.Referencing? || x.Leaving?
  }

  /** The mutation is done. */
  predicate Ended(phase: WritePhase) { phase.Destroying? || phase.Mutated? || phase.Returning? }

  /** The activity holds a shared pointer to the slot: connect until the slot is on the list, and
  Connection::disconnect until it returns. */
  predicate Keeps(x: Activity, slot: SlotId) {
    x.Writing? && (x.op == CleanUp(slot) || (x.op == Add(slot) && !Ended(x.phase)))
  }

  // ----- writers

  /** The mutation of the current list. */
  function Mutate(s: State, op: Op): State
    requires s.cur in s.heap && (op.CleanUp? ==> op.slot in s.index)
    requires op.Add? || op.CleanUp? ==> op.slot in s.group
  {
    var t := Table(s.heap[s.cur].groups, s.index);
    match op
    case Add(slot) => Store(s, AddSlot(t, slot, s.group[slot])).(added := s.added + {slot})
    case CleanUp(slot) => Store(s, Clean(t, slot, s.group[slot])).(cleaned := s.cleaned + [slot])
    case RemoveIf(matching) => Bulk(s, DisconnectIf(t, matching).0)
    case RemoveGroup(gid) => Bulk(s, DisconnectGroup(t, gid).0)
    case RemoveAll => Bulk(s, Clear(t))
  }

  function Store(s: State, t: Table): State
    requires s.cur in s.heap
  {
    SetPayload(s, s.cur, s.heap[s.cur].(groups := t.groups)).(index := t.index)
  }

  /** Stores the list and records the slots that are no longer on it. */
  function Bulk(s: State, t: Table): State
    requires s.cur in s.heap
  {
    Store(s, t).(bulk := s.bulk + (Elems(Flatten(s.heap[s.cur].groups)) - Elems(Flatten(t.groups))))
  }

  predicate IsBulk(op: Op) { !op.Add? && !op.CleanUp? }

  /** Something other than the current list refers to the slot. */
  predicate ReferredElsewhere(s: State, slot: SlotId) {
    || (exists p :: p in s.heap && p != s.cur && slot in Flatten(s.heap[p].groups))
    || (exists b :: b in s.acts && Keeps(s.acts[b], slot))
  }

  /** The list of a payload; empty when there is no such payload. */
  function ListOf(s: State, p: PayloadId): seq<Group> {
    if p in s.heap then s.heap[p].groups else []
  }

  /** The slots whose last reference a mutation from s to t drops. */
  function Dropped(s: State, t: State): set<SlotId> {
    set x | x in Flatten(ListOf(s, s.cur)) && x !in Flatten(ListOf(t, t.cur)) && !ReferredElsewhere(s, x)
  }

  /** The phase after a mutation: destructors of dropped slots run while the mutex is held. */
  function AfterMutation(s: State, t: State, op: Op): WritePhase {
    if IsBulk(op) then Destroying(Dropped(s, t)) else Mutated
  }

  function WriteStep(s: State, a: ActivityId, op: Op, phase: WritePhase): State
    requires var t := Touched(s, Writing(op, phase)); t.Some? ==> t.value in s.heap
  {
    match phase
    case Waiting => Put(s.(mutex := Some(a)), a, Writing(op, Testing))
    case Testing => Put(s, a, Writing(op, if s.heap[s.cur].count == 1 then Ready else Duplicating))
    case Duplicating =>
      var n := s.nextPayload;
      Put(SetPayload(s, n, Payload(1, s.heap[s.cur].groups)).(nextPayload := n + 1), a, Writing(op, Duplicated(n)))
    case Duplicated(n) => Put(s.(cur := n), a, Writing(op, Swapped(s.cur)))
    case Swapped(p) =>
      var c := s.heap[p].count;
      if c == 0 then s.(fault := true)
      else
        Put(SetPayload(s, p, s.heap[p].(count := c - 1)), a, Writing(op, if c == 1 then Discarding(p) else Ready))
    case Discarding(p) => Put(Delete(s, p), a, Writing(op, Ready))
    case Ready =>
      if (op.Add? || op.CleanUp?) && (op.slot !in s.index || op.slot !in s.group) then s.(fault := true)
      else Put(Mutate(s, op), a, Writing(op, AfterMutation(s, Mutate(s, op), op)))
    case Destroying(_) => Put(s, a, Writing(op, Mutated))
    case Mutated => Put(s.(mutex := None), a, Writing(op, Returning))
    case Returning => Finish(s, a)
  }

  // ----- readers

  /** The destructor of a reader's reference. */
  function Release(s: State, a: ActivityId, p: PayloadId): State
    requires p in s.heap
  {
    var c := s.heap[p].count;
    if c == 0 then s.(fault := true)
    else
      var s1 := SetPayload(s, p, s.heap[p].(count := c - 1));
      if c == 1 then Put(s1, a, Freeing(p)) else Finish(s1, a)
  }

  function EmitStep(s: State, a: ActivityId, x: Activity): State
    requires x.Emitting? && x.view.p in s.heap
  {
    var groups := s.heap[x.view.p].groups;
    match x.turn
    case Fetch =>
      if x.g >= |groups| then Release(s, a, x.view.p)
      else if x.i >= |groups[x.g].slts| then Put(s, a, x.(g := x.g + 1, i := 0))
      else Put(s, a, x.(turn := Visit(groups[x.g].slts[x.i], CheckConnected)))
    case Visit(slot, check) => VisitStep(s, a, x, slot, check)
  }

  function EndTurn(x: Activity, slot: SlotId, called: bool): Activity
    requires x.Emitting?
  {
    x.(i := x.i + 1, turn := Fetch, log := x.log + [Outcome(slot, called)])
  }

  predicate ObjectGone(s: State, slot: SlotId) {
    slot in s.tracks && s.tracks[slot] in s.expired
  }

  /** What an emission does next after a check of the slot whose turn it is. */
  function NextTurn(s: State, x: Activity, slot: SlotId, check: Check): Activity
    requires x.Emitting?
  {
    var skip := EndTurn(x, slot, false);
    match check
    case CheckConnected => if slot in s.disconnected then skip else x.(turn := Visit(slot, CheckBlocked))
    case CheckBlocked =>
      if slot in s.blocked then skip else x.(turn := Visit(slot, if slot in s.tracks then LockObject else Calling))
    case LockObject => x.(turn := Visit(slot, if ObjectGone(s, slot) then Expired else CheckAgain))
    case CheckAgain => if slot in s.disconnected then skip else x.(turn := Visit(slot, Calling))
    case Calling => EndTurn(x, slot, true)
    case Expired => if slot in s.disconnected then skip else x.(turn := Visit(slot, Awaiting(s.nextAct)))
    case Awaiting(_) => skip
  }

  /** A slot whose object is gone is disconnected by the emission that finds out. */
  function VisitStep(s: State, a: ActivityId, x: Activity, slot: SlotId, check: Check): State
    requires x.Emitting?
  {
    Put(if check.Expired? then Exchange(s, slot) else s, a, NextTurn(s, x, slot, check))
  }

  function CountStep(s: State, a: ActivityId, x: Activity): State
    requires x.Counting? && x.view.p in s.heap
  {
    var groups := s.heap[x.view.p].groups;
    if x.g >= |groups| then Release(s, a, x.view.p)
    else Put(s, a, x.(g := x.g + 1, sum := x.sum + |groups[x.g].slts|))
  }

  function ReadStep(s: State, a: ActivityId, x: Activity): State
    requires !x.Writing? && var t := Touched(s, x); t.Some? ==> t.value in s.heap
  {
    match x
    case Entering => if s.signalBlocked then Finish(s, a) else Put(s, a, Asking(Emission))
    case Asking(purpose) => Put(s.(mutex := Some(a)), a, Referencing(purpose))
    case Referencing(purpose) =>
      var q := s.heap[s.cur];
      Put(SetPayload(s, s.cur, q.(count := q.count + 1)), a, Leaving(purpose, View(s.cur, q.groups)))
    case Leaving(purpose, v) =>
      Put(s.(mutex := None), a, if purpose == Emission then Emitting(v, 0, 0, Fetch, []) else Counting(v, 0, 0))
    case Emitting(_, _, _, _, _) => EmitStep(s, a, x)
    case Counting(_, _, _) => CountStep(s, a, x)
    case Freeing(p) => Finish(Delete(s, p), a)
  }

  // ----- transitions

  /** Transitions. A call is started by the program, or by the user code of a running call. */
  datatype Label =
    | CallEmit(from: Option<ActivityId>)
    | CallSlotCount(from: Option<ActivityId>)
    | CallConnect(slot: SlotId, gid: int, tracked: Option<ObjectId>, from: Option<ActivityId>)
    | CallBulk(op: Op, from: Option<ActivityId>)
    | CallDisconnect(slot: SlotId, from: Option<ActivityId>)
    | SetBlocked(slot: SlotId, on: bool)
    | BlockSignal(on: bool)
    | Expire(obj: ObjectId)
    | Act(a: ActivityId)

  predicate IsCall(l: Label) {
    l.CallEmit? || l.CallSlotCount? || l.CallConnect? || l.CallBulk? || l.CallDisconnect?
  }

  function Caller(l: Label): Option<ActivityId> { if IsCall(l) then l.from else None }

  /** User code runs: a callback, or destructors of slots, under the mutex or not. */
  predicate RunsUserCode(x: Activity) {
    || (x.Emitting? && x.turn.Visit? && x.turn.check.Calling?)
    || x.Freeing?
    || (x.Writing? && x.phase.Destroying? && x.phase.dead != {})
    || (x.Writing? && x.phase.Returning?)
  }

  /** A call started by user code of a is still running. */
  predicate HasCallees(s: State, a: ActivityId) {
    exists b :: b in s.acts && b in s.parent && s.parent[b] == a
  }

  /** An emission past lock() keeps its slot's object alive until its turn ends. */
  predicate Pins(s: State, x: Activity, obj: ObjectId) {
    && x.Emitting? && x.turn.Visit? && (x.turn.check.CheckAgain? || x.turn.check.Calling?)
    && x.turn.slot in s.tracks && s.tracks[x.turn.slot] == obj
  }

  predicate Enabled(s: State, l: Label) {
    && (Caller(l).Some? ==> Caller(l).value in s.acts && RunsUserCode(s.acts[Caller(l).value]))
    && match l
       case CallConnect(slot, _, _, _) => slot !in s.group
       case CallBulk(op, _) => IsBulk(op)
       case CallDisconnect(slot, _) => slot in s.added
       case Expire(obj) => forall a :: a in s.acts ==> !Pins(s, s.acts[a], obj)
       case Act(a) => CanAct(s, a)
       case _ => true
  }

  /** Waiting for the mutex, for a cleanup, or for the calls of its user code, an activity cannot act. */
  predicate CanAct(s: State, a: ActivityId) {
    && a in s.acts
    && (WantsMutex(s.acts[a]) ==> s.mutex == None)
    && (Waits(s.acts[a]) ==> s.acts[a].turn.check.child !in s.acts)
    && (RunsUserCode(s.acts[a]) ==> !HasCallees(s, a))
  }

  /** An emission that waits for the cleanup it started. */
  predicate Waits(x: Activity) { x.Emitting? && x.turn.Visit? && x.turn.check.Awaiting? }

  function ActivityStep(s: State, a: ActivityId): State
    requires a in s.acts
  {
    var x := s.acts[a];
    var t := Touched(s, x);
    if t.Some? && t.value !in s.heap then s.(fault := true)
    else if x.Writing? then WriteStep(s, a, x.op, x.phase)
    else ReadStep(s, a, x)
  }

  function Connected(s: State, slot: SlotId, gid: int, obj: Option<ObjectId>): State {
    var s1 := s.(group := s.group[slot := gid], index := s.index[slot := 0]);
    var s2 := if obj.Some? then s1.(tracks := s1.tracks[slot := obj.value]) else s1;
    Spawn(s2, Writing(Add(slot), Waiting))
  }

  /** What a transition does, apart from who started it. */
  function Effect(s: State, l: Label): State
    requires Enabled(s, l)
  {
    match l
    case CallEmit(_) => Spawn(s, Entering)
    case CallSlotCount(_) => Spawn(s, Asking(Count))
    case CallConnect(slot, gid, obj, _) => Connected(s, slot, gid, obj)
    case CallBulk(op, _) => Spawn(s, Writing(op, Waiting))
    case CallDisconnect(slot, _) => Exchange(s, slot)
    case SetBlocked(slot, on) => s.(blocked := if on then s.blocked + {slot} else s.blocked - {slot})
    case BlockSignal(on) => s.(signalBlocked := on)
    case Expire(obj) => s.(expired := s.expired + {obj})
    case Act(a) => ActivityStep(s, a)
  }

  /** Records the caller of an activity that was started, if one was. */
  function Recorded(s: State, t: State, from: Option<ActivityId>): State {
    if from.Some? && s.nextAct < t.nextAct then t.(parent := t.parent[s.nextAct := from.value]) else t
  }

  function After(s: State, l: Label): State
    requires Enabled(s, l)
  {
    Recorded(s, Effect(s, l), Caller(l))
  }

  /** A run from the initial state: the states before, between and after the labelled transitions. */
  ghost predicate Run(states: seq<State>, labels: seq<Label>) {
    && |states| == |labels| + 1 && states[0] == INIT
    && forall k :: 0 <= k < |labels| ==> Enabled(states[k], labels[k]) && states[k + 1] == After(states[k], labels[k])
  }
}
