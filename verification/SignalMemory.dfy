/** Copy-on-write memory safety in every reachable state: the count of a payload is the number of its
holders, a payload held by a reader keeps its contents, no deleted payload is accessed, and each payload
is deleted once. */
module SignalMemory {
  import opened Wrappers
  import opened SlotTable
  import opened SignalProtocol

  ghost function Holders(acts: map<ActivityId, Activity>, p: PayloadId): set<ActivityId> {
    set a | a in acts && Held(acts[a]) == Some(p)
  }

  ghost function HolderCount(acts: map<ActivityId, Activity>, p: PayloadId): nat {
    |Holders(acts, p)|
  }

  /** The count of a payload; zero when there is no such payload. */
  function CountOf(s: State, p: PayloadId): nat {
    if p in s.heap then s.heap[p].count else 0
  }

  ghost predicate Counted(s: State) {
    forall p: PayloadId :: CountOf(s, p) == HolderCount(s.acts, p) + One(p == s.cur)
  }

  /** The view of a reader. */
  function ViewOf(x: Activity): Option<View> {
    match x
    case Leaving(_, v) => Some(v)
    case Emitting(v, _, _, _, _) => Some(v)
    case Counting(v, _, _) => Some(v)
    case _ => None
  }

  /** What holds of one activity: its payloads exist, its snapshot is intact, and a writer past the
  uniqueness test is the only holder of the list it will change. */
  ghost predicate ActOk(s: State, x: Activity) {
    && (Held(x).Some? ==> Held(x).value in s.heap)
    && (Doomed(x).Some? ==> Doomed(x).value in s.heap && s.heap[Doomed(x).value].count == 0)
    && (ViewOf(x).Some? ==> ListOf(s, ViewOf(x).value.p) == ViewOf(x).value.snap)
    && (x.Writing? ==>
          match x.phase
          case Duplicated(n) => n != s.cur && CountOf(s, n) == 1 && ListOf(s, n) == ListOf(s, s.cur)
          case Swapped(p) => p != s.cur && CountOf(s, s.cur) == 1 && ListOf(s, p) == ListOf(s, s.cur)
          case Discarding(p) => p != s.cur && CountOf(s, s.cur) == 1 && ListOf(s, p) == ListOf(s, s.cur)
          case Ready => CountOf(s, s.cur) == 1
          case _ => true)
  }

  ghost predicate ActsOk(s: State) {
    forall a :: a in s.acts ==> ActOk(s, s.acts[a])
  }

  /** The mutex holder is the only activity inside a critical section. */
  ghost predicate Exclusive(s: State) {
    && (s.mutex.Some? ==> s.mutex.value in s.acts)
    && forall a :: a in s.acts ==> (HasMutex(s.acts[a]) <==> s.mutex == Some(a))
  }

  predicate SameDoomed(x: Activity, y: Activity) { Doomed(x).Some? && Doomed(x) == Doomed(y) }

  /** A payload without holders is about to be deleted, by exactly one activity. */
  ghost predicate DoomedOnce(s: State) {
    && (forall a, b :: a in s.acts && b in s.acts && SameDoomed(s.acts[a], s.acts[b]) ==> a == b)
    && (forall p :: p in s.heap && s.heap[p].count == 0 ==> exists a :: a in s.acts && Doomed(s.acts[a]) == Some(p))
  }

  /** Every payload ever made is live or was deleted, and was deleted once. */
  ghost predicate Accounted(s: State) {
    && (forall p :: p in s.heap || p in s.freed ==> p < s.nextPayload)
    && (forall p :: 0 <= p < s.nextPayload ==> (p in s.heap <==> p !in s.freed))
    && Distinct(s.freed)
    && s.cur in s.heap
    && (forall a :: a in s.acts ==> a < s.nextAct)
  }

  ghost predicate MemoryInv(s: State) {
    !s.fault && Counted(s) && ActsOk(s) && Exclusive(s) && DoomedOnce(s) && Accounted(s)
  }

  // ----- counting holders

  lemma HoldersPut(acts: map<ActivityId, Activity>, a: ActivityId, y: Activity, p: PayloadId)
    ensures HolderCount(acts[a := y], p) + One(a in acts && Held(acts[a]) == Some(p))
         == HolderCount(acts, p) + One(Held(y) == Some(p))
  {
    hide Held, Holders;
    WithOrWithout(Holders(acts, p), a);
    WithOrWithout(Holders(acts[a := y], p), a);
    OtherHolders(acts, a, y, p);
  }

  lemma OtherHolders(acts: map<ActivityId, Activity>, a: ActivityId, y: Activity, p: PayloadId)
    ensures Holders(acts[a := y], p) - {a} == Holders(acts, p) - {a}
    ensures a in Holders(acts, p) <==> a in acts && Held(acts[a]) == Some(p)
    ensures a in Holders(acts[a := y], p) <==> Held(y) == Some(p)
  {
    hide Held;
  }

  lemma HoldersDrop(acts: map<ActivityId, Activity>, a: ActivityId, p: PayloadId)
    requires a in acts
    ensures HolderCount(acts - {a}, p) + One(Held(acts[a]) == Some(p)) == HolderCount(acts, p)
  {
    hide Held;
    WithOrWithout(Holders(acts, p), a);
    assert Holders(acts - {a}, p) == Holders(acts, p) - {a};
  }

  lemma HolderCounts(s: State, p: PayloadId, b: ActivityId)
    requires Counted(s) && b in s.acts && Held(s.acts[b]) == Some(p)
    ensures CountOf(s, p) >= 1 + One(p == s.cur)
  {
    hide Held;
    assert b in Holders(s.acts, p);
  }

  lemma TwoHolders(s: State, p: PayloadId, a: ActivityId, b: ActivityId)
    requires Counted(s) && a in s.acts && b in s.acts && a != b
    requires Held(s.acts[a]) == Some(p) && Held(s.acts[b]) == Some(p)
    ensures CountOf(s, p) >= 2
  {
    hide Held;
    var all := Holders(s.acts, p);
    WithOrWithout(all, a);
    assert b in all - {a};
  }

  // ----- one lemma for each part of the invariant

  /** The counts stay right when every count moves with the references. */
  lemma CountedPut(s: State, t: State, a: ActivityId, y: Activity)
    requires Counted(s) && t.acts == s.acts[a := y]
    requires forall p: PayloadId :: CountOf(t, p) + One(a in s.acts && Held(s.acts[a]) == Some(p)) + One(p == s.cur)
                      == CountOf(s, p) + One(Held(y) == Some(p)) + One(p == t.cur)
    ensures Counted(t)
  {
    hide HolderCount, Held, CountOf;
    forall p: PayloadId ensures CountOf(t, p) == HolderCount(t.acts, p) + One(p == t.cur) {
      HoldersPut(s.acts, a, y, p);
    }
  }

  lemma CountedDrop(s: State, t: State, a: ActivityId)
    requires Counted(s) && a in s.acts && t.acts == s.acts - {a} && t.cur == s.cur
    requires forall p: PayloadId :: CountOf(t, p) + One(Held(s.acts[a]) == Some(p)) == CountOf(s, p)
    ensures Counted(t)
  {
    hide HolderCount, Held, CountOf;
    forall p: PayloadId ensures CountOf(t, p) == HolderCount(t.acts, p) + One(p == t.cur) {
      HoldersDrop(s.acts, a, p);
    }
  }

  /** Doomed payloads when one activity changes and no count drops to zero or is deleted. */
  lemma DoomedKept(s: State, t: State, a: ActivityId)
    requires DoomedOnce(s)
    requires forall b :: b in s.acts && b != a ==> b in t.acts && t.acts[b] == s.acts[b]
    requires forall b :: b in t.acts && b != a ==> b in s.acts
    requires a in t.acts && Doomed(t.acts[a]).Some? ==> a in s.acts && Doomed(t.acts[a]) == Doomed(s.acts[a])
    requires a in s.acts && Doomed(s.acts[a]).Some? ==> a in t.acts && Doomed(t.acts[a]) == Doomed(s.acts[a])
    requires forall p :: p in t.heap && t.heap[p].count == 0 ==> p in s.heap && s.heap[p].count == 0
    ensures DoomedOnce(t)
  {
    hide Doomed;
    forall p | p in t.heap && t.heap[p].count == 0 ensures exists b :: b in t.acts && Doomed(t.acts[b]) == Some(p) {
      var b :| b in s.acts && Doomed(s.acts[b]) == Some(p);
      assert Doomed(t.acts[b]) == Some(p);
    }
  }

  // ----- transitions that leave the payloads alone

  lemma SpawnKeeps(s: State, x: Activity)
    requires MemoryInv(s) && Held(x) == None && Doomed(x) == None && ViewOf(x) == None && !HasMutex(x)
    ensures MemoryInv(Spawn(s, x))
  {
    hide Counted, DoomedOnce, HasMutex, Held, Doomed, Distinct, ViewOf;
    var t := Spawn(s, x);
    CountedPut(s, t, s.nextAct, x);
    DoomedKept(s, t, s.nextAct);
    SameActs(s, t, s.nextAct);
    NoPayload(t, x);
  }

  lemma NoPayload(s: State, x: Activity)
    requires Held(x) == None && Doomed(x) == None && ViewOf(x) == None && !HasMutex(x)
    ensures ActOk(s, x)
  {
  }

  /** Activities other than a keep what held of them when the payloads they rely on are unchanged. */
  lemma SameActs(s: State, t: State, a: ActivityId)
    requires ActsOk(s) && t.heap == s.heap && t.cur == s.cur
    requires forall b :: b in t.acts && b != a ==> b in s.acts && t.acts[b] == s.acts[b]
    ensures forall b :: b in t.acts && b != a ==> ActOk(t, t.acts[b])
  {
    hide Held, Doomed, ViewOf;
    forall b | b in t.acts && b != a ensures ActOk(t, t.acts[b]) {
      assert ActOk(s, s.acts[b]);
    }
  }

  /** An activity that goes on holding the same payload, taking or giving back the mutex or neither. */
  lemma QuietKeeps(s: State, a: ActivityId, m: Option<ActivityId>, y: Activity)
    requires MemoryInv(s) && a in s.acts
    requires Held(y) == Held(s.acts[a]) && Doomed(y) == Doomed(s.acts[a]) && ActOk(s, y)
    requires if HasMutex(y) == HasMutex(s.acts[a]) then m == s.mutex
             else if HasMutex(y) then s.mutex == None && m == Some(a) else m == None
    ensures MemoryInv(Put(s.(mutex := m), a, y))
  {
    hide Counted, DoomedOnce, HasMutex, Held, Doomed, Distinct, ViewOf;
    var t := Put(s.(mutex := m), a, y);
    CountedPut(s, t, a, y);
    DoomedKept(s, t, a);
    SameActs(s, t, a);
    SameOk(s, t, y);
  }

  lemma SameOk(s: State, t: State, x: Activity)
    requires ActOk(s, x) && t.heap == s.heap && t.cur == s.cur
    ensures ActOk(t, x)
  {
    hide Held, Doomed, ViewOf;
  }

  /** An activity that ends without a payload, giving back the mutex if it had it. */
  lemma FinishKeeps(s: State, a: ActivityId)
    requires MemoryInv(s) && a in s.acts && Held(s.acts[a]) == None && Doomed(s.acts[a]) == None
    ensures MemoryInv(Finish(s.(mutex := if s.mutex == Some(a) then None else s.mutex), a))
  {
    hide Counted, DoomedOnce, HasMutex, Held, Doomed, Distinct, ViewOf;
    var t := Finish(s.(mutex := if s.mutex == Some(a) then None else s.mutex), a);
    CountedDrop(s, t, a);
    DoomedKept(s, t, a);
    SameActs(s, t, a);
  }

  // ----- transitions that change one payload

  /** t differs from s, for activities other than a, only in payload q, and none of them needs more of q
  than it still has. */
  ghost predicate ChangesOnly(s: State, t: State, a: ActivityId, q: PayloadId) {
    && (forall p :: p in s.heap && p != q ==> p in t.heap && t.heap[p] == s.heap[p])
    && (forall b :: b in t.acts && b != a ==> b in s.acts && t.acts[b] == s.acts[b])
    && (forall b :: b in s.acts && b != a ==>
          && (Held(s.acts[b]) == Some(q) ==> q in t.heap && ListOf(t, q) == ListOf(s, q))
          && Doomed(s.acts[b]) != Some(q))
  }

  /** A writer inside its critical section, if not a itself, does not depend on q. */
  ghost predicate Steady(s: State, t: State, x: Activity, q: PayloadId) {
    HasMutex(x) ==>
      && t.cur == s.cur && ListOf(t, t.cur) == ListOf(s, s.cur)
      && (x.Writing? && x.phase.Duplicated? ==> x.phase.copy != q)
      && (x.Writing? && (x.phase.Swapped? || x.phase.Discarding? || x.phase.Ready?) ==> s.cur != q)
      && (x.Writing? && (x.phase.Swapped? || x.phase.Discarding?) ==>
            ListOf(t, x.phase.replaced) == ListOf(s, x.phase.replaced))
  }

  lemma OtherOk(s: State, t: State, x: Activity, q: PayloadId)
    requires ActOk(s, x) && s.cur in s.heap
    requires forall p :: p in s.heap && p != q ==> p in t.heap && t.heap[p] == s.heap[p]
    requires Held(x) == Some(q) ==> q in t.heap && ListOf(t, q) == ListOf(s, q)
    requires Doomed(x) != Some(q) && Steady(s, t, x, q)
    ensures ActOk(t, x)
  {
  }

  lemma OthersOk(s: State, t: State, a: ActivityId, q: PayloadId)
    requires ActsOk(s) && s.cur in s.heap && ChangesOnly(s, t, a, q)
    requires forall b :: b in s.acts && b != a ==> Steady(s, t, s.acts[b], q)
    ensures forall b :: b in t.acts && b != a ==> ActOk(t, t.acts[b])
  {
    hide Held, Doomed, ViewOf, ActOk, Steady;
    forall b | b in t.acts && b != a ensures ActOk(t, t.acts[b]) {
      OtherOk(s, t, s.acts[b], q);
    }
  }

  /** The holder of the mutex makes the others steady. */
  lemma OthersOutside(s: State, t: State, a: ActivityId, q: PayloadId)
    requires Exclusive(s) && s.mutex == Some(a)
    ensures forall b :: b in s.acts && b != a ==> Steady(s, t, s.acts[b], q)
  {
    hide HasMutex;
  }

  /** What the phases of a writer hold. */
  lemma WriterFacts(op: Op, phase: WritePhase)
    ensures HasMutex(Writing(op, phase)) == (!phase.Waiting? && !phase.Returning?)
    ensures ViewOf(Writing(op, phase)) == None
    ensures Held(Writing(op, phase)) ==
              if phase.Duplicated? then Some(phase.copy) else if phase.Swapped? then Some(phase.replaced) else None
    ensures Doomed(Writing(op, phase)) == if phase.Discarding? then Some(phase.replaced) else None
  {
  }

  lemma ReaderFacts(x: Activity)
    requires !x.Writing?
    ensures HasMutex(x) == (x.Referencing? || x.Leaving?)
    ensures ViewOf(x) == if x.Leaving? || x.Emitting? || x.Counting? then Some(x.view) else None
    ensures Held(x) == if ViewOf(x).Some? then Some(ViewOf(x).value.p) else None
    ensures Doomed(x) == if x.Freeing? then Some(x.p) else None
  {
  }

  lemma ActIsOk(s: State, a: ActivityId)
    requires ActsOk(s) && a in s.acts
    ensures ActOk(s, s.acts[a])
  {
  }

  lemma ActsJoin(t: State, a: ActivityId)
    requires a in t.acts ==> ActOk(t, t.acts[a])
    requires forall b :: b in t.acts && b != a ==> ActOk(t, t.acts[b])
    ensures ActsOk(t)
  {
  }

  lemma ExclusivePut(s: State, t: State, a: ActivityId, y: Activity)
    requires Exclusive(s) && a in s.acts && t.acts == s.acts[a := y] && t.mutex == s.mutex
    requires HasMutex(y) == HasMutex(s.acts[a])
    ensures Exclusive(t)
  {
    hide HasMutex;
  }

  lemma AccountedPut(s: State, t: State, a: ActivityId, y: Activity)
    requires Accounted(s) && a in s.acts && t.acts == s.acts[a := y] && t.cur in s.heap
    requires t.heap.Keys == s.heap.Keys && t.nextPayload == s.nextPayload && t.freed == s.freed
    requires t.nextAct == s.nextAct
    ensures Accounted(t)
  {
    hide Distinct;
    assert forall p :: p in t.heap <==> p in t.heap.Keys;
  }

  lemma HeldExist(s: State)
    requires ActsOk(s)
    ensures forall b :: b in s.acts && Held(s.acts[b]).Some? ==> Held(s.acts[b]).value in s.heap
  {
    hide Held, Doomed, ViewOf;
    forall b | b in s.acts && Held(s.acts[b]).Some? ensures Held(s.acts[b]).value in s.heap {
      assert ActOk(s, s.acts[b]);
    }
  }

  lemma NotDoomed(s: State, p: PayloadId)
    requires ActsOk(s) && (p !in s.heap || s.heap[p].count > 0)
    ensures forall b :: b in s.acts ==> Doomed(s.acts[b]) != Some(p)
  {
    hide Held, Doomed, ViewOf;
    forall b | b in s.acts ensures Doomed(s.acts[b]) != Some(p) {
      assert ActOk(s, s.acts[b]);
    }
  }

  /** The mutex holder has the mutex. */
  lemma Inside(s: State, a: ActivityId)
    requires Exclusive(s) && a in s.acts && HasMutex(s.acts[a])
    ensures s.mutex == Some(a)
  {
  }

  /** The copy constructor behind write(): a new payload held by the writer. */
  lemma DuplicateKeeps(s: State, a: ActivityId, op: Op)
    requires MemoryInv(s) && a in s.acts && s.acts[a] == Writing(op, Duplicating)
    ensures var n := s.nextPayload;
            var s1 := SetPayload(s, n, Payload(1, s.heap[s.cur].groups)).(nextPayload := n + 1);
            MemoryInv(Put(s1, a, Writing(op, Duplicated(n))))
  {
    hide Counted, DoomedOnce, ActsOk, ActOk, Steady, Exclusive, Distinct, Held, Doomed, HasMutex, ViewOf;
    var n := s.nextPayload;
    var y := Writing(op, Duplicated(n));
    var t := Put(SetPayload(s, n, Payload(1, s.heap[s.cur].groups)).(nextPayload := n + 1), a, y);
    WriterFacts(op, Duplicating);
    WriterFacts(op, Duplicated(n));
    Inside(s, a);
    CountedPut(s, t, a, y);
    DoomedKept(s, t, a);
    ExclusivePut(s, t, a, y);
    OthersOutside(s, t, a, n);
    NotDoomed(s, n);
    HeldExist(s);
    OthersOk(s, t, a, n);
    NewCopyOk(t, op, n);
    ActsJoin(t, a);
  }

  lemma NewCopyOk(t: State, op: Op, n: PayloadId)
    requires t.cur != n && n in t.heap && t.heap[n].count == 1 && ListOf(t, n) == ListOf(t, t.cur)
    ensures ActOk(t, Writing(op, Duplicated(n)))
  {
  }

  /** The swap inside move assignment: the temporary now holds the replaced payload. */
  lemma SwapKeeps(s: State, a: ActivityId, op: Op, n: PayloadId)
    requires MemoryInv(s) && a in s.acts && s.acts[a] == Writing(op, Duplicated(n))
    ensures MemoryInv(Put(s.(cur := n), a, Writing(op, Swapped(s.cur))))
  {
    hide Counted, DoomedOnce, ActsOk, ActOk, Steady, Exclusive, Accounted, Distinct, Held, Doomed, HasMutex, ViewOf;
    var y := Writing(op, Swapped(s.cur));
    var t := Put(s.(cur := n), a, y);
    WriterFacts(op, Duplicated(n));
    WriterFacts(op, Swapped(s.cur));
    Inside(s, a);
    CountedPut(s, t, a, y);
    DoomedKept(s, t, a);
    ExclusivePut(s, t, a, y);
    HeldExist(s);
    CurLive(s);
    AccountedPut(s, t, a, y);
    OthersOutside(s, t, a, s.nextPayload);
    NotDoomed(s, s.nextPayload);
    OthersOk(s, t, a, s.nextPayload);
    ActIsOk(s, a);
    SwappedOk(s, t, op, n);
    ActsJoin(t, a);
  }

  lemma CurLive(s: State)
    requires Accounted(s)
    ensures s.cur in s.heap && s.nextPayload !in s.heap
  {
    hide Distinct;
  }

  lemma SwappedOk(s: State, t: State, op: Op, n: PayloadId)
    requires ActOk(s, Writing(op, Duplicated(n))) && s.cur in s.heap && t.heap == s.heap && t.cur == n
    ensures ActOk(t, Writing(op, Swapped(s.cur)))
  {
  }

  // ----- dropping a reference

  /** Other writers do not depend on a payload that a reader is about to release. */
  lemma ReleaseSteady(s: State, t: State, a: ActivityId, p: PayloadId)
    requires Counted(s) && ActsOk(s) && a in s.acts && Held(s.acts[a]) == Some(p)
    requires t.cur == s.cur && forall q :: ListOf(t, q) == ListOf(s, q)
    ensures forall b :: b in s.acts && b != a ==> Steady(s, t, s.acts[b], p)
  {
    hide Counted, HasMutex, Held, Doomed, ViewOf, CountOf, ListOf;
    HolderCounts(s, p, a);
    forall b | b in s.acts && b != a ensures Steady(s, t, s.acts[b], p) {
      assert ActOk(s, s.acts[b]);
      var x := s.acts[b];
      if x.Writing? {
        WriterFacts(x.op, x.phase);
        if x.phase == Duplicated(p) { TwoHolders(s, p, a, b); }
      }
    }
  }

  lemma OthersAfterDrop(s: State, t: State, a: ActivityId, p: PayloadId)
    requires Counted(s) && ActsOk(s) && Accounted(s)
    requires a in s.acts && Held(s.acts[a]) == Some(p) && p in s.heap && s.heap[p].count >= 1
    requires t.heap == s.heap[p := s.heap[p].(count := s.heap[p].count - 1)] && t.cur == s.cur
    requires forall b :: b in t.acts && b != a ==> b in s.acts && t.acts[b] == s.acts[b]
    ensures forall b :: b in t.acts && b != a ==> ActOk(t, t.acts[b])
  {
    hide Counted, DoomedOnce, Accounted, Held, Doomed, HasMutex, ViewOf, ActsOk, ActOk, Steady;
    CurLive(s);
    ReleaseSteady(s, t, a, p);
    NotDoomed(s, p);
    OthersOk(s, t, a, p);
  }

  /** The count reaches zero: the activity that saw it is the one to delete. */
  lemma DoomedAdded(s: State, t: State, a: ActivityId, y: Activity, p: PayloadId)
    requires DoomedOnce(s) && a in s.acts && t.acts == s.acts[a := y] && Doomed(s.acts[a]) == None
    requires forall b :: b in s.acts ==> Doomed(s.acts[b]) != Some(p)
    requires Doomed(y) == Some(p)
    requires forall q :: q in t.heap && q != p ==> q in s.heap && t.heap[q] == s.heap[q]
    ensures DoomedOnce(t)
  {
    hide Doomed;
    forall q | q in t.heap && t.heap[q].count == 0 ensures exists b :: b in t.acts && Doomed(t.acts[b]) == Some(q) {
      if q == p {
        assert Doomed(t.acts[a]) == Some(q);
      } else {
        var b :| b in s.acts && Doomed(s.acts[b]) == Some(q);
        assert Doomed(t.acts[b]) == Some(q);
      }
    }
  }

  /** `--count` by an activity that goes on; it will delete exactly when it saw zero. */
  lemma DropPutKeeps(s: State, a: ActivityId, p: PayloadId, y: Activity)
    requires MemoryInv(s) && a in s.acts && Held(s.acts[a]) == Some(p) && Doomed(s.acts[a]) == None
    requires p in s.heap && s.heap[p].count >= 1
    requires Held(y) == None && HasMutex(y) == HasMutex(s.acts[a])
    requires Doomed(y) == if s.heap[p].count == 1 then Some(p) else None
    requires var t := Put(SetPayload(s, p, s.heap[p].(count := s.heap[p].count - 1)), a, y); ActOk(t, y)
    ensures MemoryInv(Put(SetPayload(s, p, s.heap[p].(count := s.heap[p].count - 1)), a, y))
  {
    hide Counted, DoomedOnce, ActsOk, ActOk, Exclusive, Accounted, Held, Doomed, HasMutex;
    var t := Put(SetPayload(s, p, s.heap[p].(count := s.heap[p].count - 1)), a, y);
    CurLive(s);
    CountedPut(s, t, a, y);
    if s.heap[p].count == 1 {
      NotDoomed(s, p);
      DoomedAdded(s, t, a, y, p);
    } else {
      DoomedKept(s, t, a);
    }
    ExclusivePut(s, t, a, y);
    AccountedPut(s, t, a, y);
    OthersAfterDrop(s, t, a, p);
    ActsJoin(t, a);
  }

  /** `--count` by a reader that ends because others remain. */
  lemma DropFinishKeeps(s: State, a: ActivityId, p: PayloadId)
    requires MemoryInv(s) && a in s.acts && Held(s.acts[a]) == Some(p) && Doomed(s.acts[a]) == None
    requires p in s.heap && s.heap[p].count > 1 && !HasMutex(s.acts[a])
    ensures MemoryInv(Finish(SetPayload(s, p, s.heap[p].(count := s.heap[p].count - 1)), a))
  {
    hide Counted, DoomedOnce, ActsOk, ActOk, Exclusive, Accounted, Held, Doomed, HasMutex;
    var t := Finish(SetPayload(s, p, s.heap[p].(count := s.heap[p].count - 1)), a);
    CountedDrop(s, t, a);
    DoomedKept(s, t, a);
    FinishRest(s, t, a);
    OthersAfterDrop(s, t, a, p);
    ActsJoin(t, a);
  }

  lemma FinishRest(s: State, t: State, a: ActivityId)
    requires Exclusive(s) && Accounted(s) && a in s.acts && !HasMutex(s.acts[a]) && t.acts == s.acts - {a}
    requires t.heap.Keys == s.heap.Keys && t.nextPayload == s.nextPayload && t.freed == s.freed
    requires t.nextAct == s.nextAct && t.mutex == s.mutex && t.cur == s.cur
    ensures Exclusive(t) && Accounted(t)
  {
    hide HasMutex, Distinct;
    assert forall p :: p in t.heap <==> p in t.heap.Keys;
  }

  // ----- deleting

  /** Nobody refers to a payload that is about to be deleted, except the activity that deletes it. */
  lemma DoomedAlone(s: State, a: ActivityId, p: PayloadId)
    requires MemoryInv(s) && a in s.acts && Doomed(s.acts[a]) == Some(p)
    ensures p in s.heap && s.heap[p].count == 0 && p != s.cur
    ensures forall b :: b in s.acts ==> Held(s.acts[b]) != Some(p)
    ensures forall b :: b in s.acts && b != a ==> Doomed(s.acts[b]) != Some(p)
  {
    hide Held, Doomed, HasMutex, ViewOf, Accounted, Exclusive, Counted, HolderCount;
    assert ActOk(s, s.acts[a]);
    assert p != s.cur by {
      assert CountOf(s, p) == 0;
      CurCounts(s);
    }
    forall b | b in s.acts ensures Held(s.acts[b]) != Some(p) {
      if Held(s.acts[b]) == Some(p) { HolderCounts(s, p, b); }
    }
  }

  lemma CurCounts(s: State)
    requires Counted(s)
    ensures CountOf(s, s.cur) >= 1
  {
    hide HolderCount;
    assert CountOf(s, s.cur) == HolderCount(s.acts, s.cur) + One(true);
  }

  lemma OthersAfterDelete(s: State, t: State, a: ActivityId, p: PayloadId)
    requires MemoryInv(s) && a in s.acts && Doomed(s.acts[a]) == Some(p)
    requires t.heap == s.heap - {p} && t.cur == s.cur
    requires forall b :: b in t.acts && b != a ==> b in s.acts && t.acts[b] == s.acts[b]
    ensures forall b :: b in t.acts && b != a ==> ActOk(t, t.acts[b])
  {
    hide Held, Doomed, HasMutex, ViewOf, Accounted, Exclusive, Counted, HolderCount, ActsOk, ActOk, Steady, DoomedOnce;
    CurLive(s);
    DoomedAlone(s, a, p);
    DeleteSteady(s, t, a, p);
    OthersOk(s, t, a, p);
  }

  lemma DeleteSteady(s: State, t: State, a: ActivityId, p: PayloadId)
    requires t.cur == s.cur != p && t.heap == s.heap - {p}
    requires forall b :: b in s.acts ==> Held(s.acts[b]) != Some(p)
    requires forall b :: b in s.acts && b != a ==> Doomed(s.acts[b]) != Some(p)
    ensures forall b :: b in s.acts && b != a ==> Steady(s, t, s.acts[b], p)
  {
    hide Held, HasMutex, Doomed;
    forall b | b in s.acts && b != a ensures Steady(s, t, s.acts[b], p) {
      var x := s.acts[b];
      if x.Writing? { WriterFacts(x.op, x.phase); }
    }
  }

  /** The last reference is gone, and the payload with it. */
  lemma DoomedRemoved(s: State, t: State, a: ActivityId, p: PayloadId)
    requires DoomedOnce(s) && a in s.acts && Doomed(s.acts[a]) == Some(p) && t.heap == s.heap - {p}
    requires forall b :: b in s.acts && b != a ==> b in t.acts && t.acts[b] == s.acts[b]
    requires forall b :: b in t.acts && b != a ==> b in s.acts
    requires a in t.acts ==> Doomed(t.acts[a]) == None
    ensures DoomedOnce(t)
  {
    hide Doomed;
    forall q | q in t.heap && t.heap[q].count == 0 ensures exists b :: b in t.acts && Doomed(t.acts[b]) == Some(q) {
      var b :| b in s.acts && Doomed(s.acts[b]) == Some(q);
      assert Doomed(t.acts[b]) == Some(q);
    }
  }

  lemma AccountedDelete(s: State, t: State, p: PayloadId)
    requires Accounted(s) && p in s.heap && p != s.cur && t.cur == s.cur
    requires t.heap == s.heap - {p} && t.freed == s.freed + [p] && t.nextPayload == s.nextPayload
    requires (forall a :: a in t.acts ==> a in s.acts) && t.nextAct == s.nextAct
    ensures Accounted(t)
  {
    var n := |s.freed|;
    forall j, k | 0 <= j < k < |t.freed| ensures t.freed[j] != t.freed[k] {
      assert t.freed[j] == s.freed[j];
      assert k < n ==> t.freed[k] == s.freed[k];
      assert s.freed[j] in s.freed;
    }
  }

  lemma DeletePutKeeps(s: State, a: ActivityId, op: Op, p: PayloadId)
    requires MemoryInv(s) && a in s.acts && s.acts[a] == Writing(op, Discarding(p))
    ensures MemoryInv(Put(Delete(s, p), a, Writing(op, Ready)))
  {
    hide Counted, DoomedOnce, ActsOk, Exclusive, Accounted, Held, Doomed, HasMutex, ViewOf;
    var y := Writing(op, Ready);
    var t := Put(Delete(s, p), a, y);
    WriterFacts(op, Discarding(p));
    WriterFacts(op, Ready);
    DoomedAlone(s, a, p);
    CountedPut(s, t, a, y);
    DoomedRemoved(s, t, a, p);
    ExclusivePut(s, t, a, y);
    AccountedDelete(s, t, p);
    OthersAfterDelete(s, t, a, p);
    ActIsOk(s, a);
    ActsJoin(t, a);
  }

  lemma DeleteFinishKeeps(s: State, a: ActivityId, p: PayloadId)
    requires MemoryInv(s) && a in s.acts && s.acts[a] == Freeing(p)
    ensures MemoryInv(Finish(Delete(s, p), a))
  {
    hide Counted, DoomedOnce, ActsOk, ActOk, Accounted, Held, Doomed, HasMutex, ViewOf;
    var t := Finish(Delete(s, p), a);
    ReaderFacts(s.acts[a]);
    DoomedAlone(s, a, p);
    CountedDrop(s, t, a);
    DoomedRemoved(s, t, a, p);
    AccountedDelete(s, t, p);
    OthersAfterDelete(s, t, a, p);
    ActsJoin(t, a);
  }

  // ----- raising a count, and the mutation

  lemma ReferenceKeeps(s: State, a: ActivityId, purpose: Purpose)
    requires MemoryInv(s) && a in s.acts && s.acts[a] == Referencing(purpose)
    ensures var q := s.heap[s.cur];
            MemoryInv(Put(SetPayload(s, s.cur, q.(count := q.count + 1)), a, Leaving(purpose, View(s.cur, q.groups))))
  {
    hide Counted, DoomedOnce, ActsOk, ActOk, Exclusive, Accounted, Held, Doomed, HasMutex, ViewOf, Steady;
    CurLive(s);
    var q := s.heap[s.cur];
    var y := Leaving(purpose, View(s.cur, q.groups));
    var t := Put(SetPayload(s, s.cur, q.(count := q.count + 1)), a, y);
    ReaderFacts(s.acts[a]);
    ReaderFacts(y);
    CurCounts(s);
    CountedPut(s, t, a, y);
    DoomedKept(s, t, a);
    ExclusivePut(s, t, a, y);
    AccountedPut(s, t, a, y);
    Inside(s, a);
    OthersOutside(s, t, a, s.cur);
    NotDoomed(s, s.cur);
    OthersOk(s, t, a, s.cur);
    NewViewOk(t, purpose);
    ActsJoin(t, a);
  }

  lemma NewViewOk(t: State, purpose: Purpose)
    requires t.cur in t.heap
    ensures ActOk(t, Leaving(purpose, View(t.cur, t.heap[t.cur].groups)))
  {
  }

  /** Rewriting the list of the current payload: no reader holds it. */
  lemma MutateKeeps(s: State, t: State, a: ActivityId, op: Op, groups: seq<Group>, phase: WritePhase)
    requires MemoryInv(s) && a in s.acts && s.acts[a] == Writing(op, Ready)
    requires s.cur in s.heap && t.heap == s.heap[s.cur := s.heap[s.cur].(groups := groups)] && t.cur == s.cur
    requires t.acts == s.acts[a := Writing(op, phase)] && t.mutex == s.mutex && t.fault == s.fault
    requires phase.Mutated? || phase.Destroying?
    requires t.nextPayload == s.nextPayload && t.nextAct == s.nextAct && t.freed == s.freed
    ensures MemoryInv(t)
  {
    hide Counted, DoomedOnce, ActsOk, ActOk, Exclusive, Accounted, Held, Doomed, HasMutex, ViewOf, Steady;
    var y := Writing(op, phase);
    WriterFacts(op, Ready);
    WriterFacts(op, phase);
    CountedPut(s, t, a, y);
    DoomedKept(s, t, a);
    ExclusivePut(s, t, a, y);
    AccountedPut(s, t, a, y);
    Inside(s, a);
    OthersOutside(s, t, a, s.cur);
    CurCounts(s);
    NotDoomed(s, s.cur);
    NotHeldByReaders(s, a, op);
    OthersOk(s, t, a, s.cur);
    MutatedOk(t, op, phase);
    ActsJoin(t, a);
  }

  lemma MutatedOk(t: State, op: Op, phase: WritePhase)
    requires phase.Mutated? || phase.Destroying? || phase.Returning?
    ensures ActOk(t, Writing(op, phase))
  {
  }

  /** A writer about to mutate is alone with its payload. */
  lemma NotHeldByReaders(s: State, a: ActivityId, op: Op)
    requires Counted(s) && ActsOk(s) && a in s.acts && s.acts[a] == Writing(op, Ready)
    ensures forall b :: b in s.acts ==> Held(s.acts[b]) != Some(s.cur)
  {
    hide Counted, Held, Doomed, ViewOf, CountOf;
    assert ActOk(s, s.acts[a]);
    forall b | b in s.acts ensures Held(s.acts[b]) != Some(s.cur) {
      if Held(s.acts[b]) == Some(s.cur) { HolderCounts(s, s.cur, b); }
    }
  }

  // ----- every transition

  /** Fields the memory invariant does not mention. */
  lemma EnvironmentKeeps(s: State, t: State)
    requires MemoryInv(s) && t.heap == s.heap && t.nextPayload == s.nextPayload && t.cur == s.cur && t.mutex == s.mutex
    requires t.acts == s.acts && t.nextAct == s.nextAct && t.freed == s.freed && t.fault == s.fault
    ensures MemoryInv(t)
  {
    hide HolderCount, Held, Doomed, ViewOf, HasMutex, Distinct;
    forall p: PayloadId ensures CountOf(t, p) == HolderCount(t.acts, p) + One(p == t.cur) {
      assert CountOf(s, p) == HolderCount(s.acts, p) + One(p == s.cur);
    }
    forall a | a in t.acts ensures ActOk(t, t.acts[a]) {
      assert ActOk(s, s.acts[a]);
    }
  }

  /** What the next action of an activity accesses has not been deleted. */
  lemma TouchesLive(s: State, a: ActivityId)
    requires MemoryInv(s) && a in s.acts
    ensures var t := Touched(s, s.acts[a]); t.Some? ==> t.value in s.heap
  {
    hide Counted, DoomedOnce, Exclusive, Distinct, ListOf, CountOf;
    assert ActOk(s, s.acts[a]);
  }

  /** An action of an activity is its step, without a fault on the way. */
  lemma ActUnfolds(s: State, a: ActivityId)
    requires MemoryInv(s) && Enabled(s, Act(a))
    ensures var x, t := s.acts[a], Touched(s, s.acts[a]);
            && (t.Some? ==> t.value in s.heap)
            && Effect(s, Act(a)) == (if x.Writing? then WriteStep(s, a, x.op, x.phase) else ReadStep(s, a, x))
            && After(s, Act(a)) == Effect(s, Act(a))
  {
    TouchesLive(s, a);
    hide MemoryInv, WriteStep, ReadStep;
  }

  lemma BeginKeeps(s: State, a: ActivityId, op: Op, phase: WritePhase)
    requires MemoryInv(s) && a in s.acts && s.acts[a] == Writing(op, phase) && (phase.Waiting? || phase.Testing?)
    requires (phase.Waiting? ==> s.mutex == None) && s.cur in s.heap
    ensures MemoryInv(WriteStep(s, a, op, phase))
  {
    hide MemoryInv, Held, Doomed, ActOk, ViewOf, HasMutex;
    var next := if phase.Waiting? then Testing else if s.heap[s.cur].count == 1 then Ready else Duplicating;
    WriterFacts(op, phase);
    WriterFacts(op, next);
    PhaseOk(s, op, phase, next);
    QuietKeeps(s, a, if phase.Waiting? then Some(a) else s.mutex, Writing(op, next));
  }

  lemma SwappedKeeps(s: State, a: ActivityId, op: Op, p: PayloadId)
    requires MemoryInv(s) && a in s.acts && s.acts[a] == Writing(op, Swapped(p)) && p in s.heap
    ensures MemoryInv(WriteStep(s, a, op, Swapped(p)))
  {
    hide MemoryInv, Held, Doomed, ActOk, ViewOf, HasMutex;
    WriterFacts(op, Swapped(p));
    MemoryParts(s, a);
    HeldCounts(s, a, p);
    var next := if s.heap[p].count == 1 then Discarding(p) else Ready;
    WriterFacts(op, next);
    DroppedOk(s, a, op, p);
    DropPutKeeps(s, a, p, Writing(op, next));
  }

  lemma ReadyKeeps(s: State, a: ActivityId, op: Op)
    requires MemoryInv(s) && a in s.acts && s.acts[a] == Writing(op, Ready) && s.cur in s.heap
    requires !UnknownSlot(s, s.acts[a])
    ensures MemoryInv(WriteStep(s, a, op, Ready))
  {
    hide MemoryInv, Mutate, Dropped;
    MutateFrame(s, op);
    var u := Mutate(s, op);
    var phase := AfterMutation(s, u, op);
    MutateKeeps(s, Put(u, a, Writing(op, phase)), a, op, u.heap[s.cur].groups, phase);
  }

  lemma WriteKeeps(s: State, a: ActivityId)
    requires MemoryInv(s) && Enabled(s, Act(a)) && s.acts[a].Writing? && !UnknownSlot(s, s.acts[a])
    ensures MemoryInv(Effect(s, Act(a)))
  {
    hide MemoryInv, Mutate, ActOk, Held, Doomed, HasMutex, After, UnknownSlot;
    var op, phase := s.acts[a].op, s.acts[a].phase;
    ActUnfolds(s, a);
    MemoryParts(s, a);
    match phase
    case Waiting => BeginKeeps(s, a, op, phase);
    case Testing => BeginKeeps(s, a, op, phase);
    case Duplicating => DuplicateKeeps(s, a, op);
    case Duplicated(n) => SwapKeeps(s, a, op, n);
    case Swapped(p) => SwappedKeeps(s, a, op, p);
    case Discarding(p) => DeletePutKeeps(s, a, op, p);
    case Ready => ReadyKeeps(s, a, op);
    case Destroying(_) => EndKeeps(s, a, op, phase);
    case Mutated => EndKeeps(s, a, op, phase);
    case Returning =>
      WriterFacts(op, phase);
      IdleMutex(s, a);
      FinishKeeps(s, a);
  }

  /** The end of the critical section. */
  lemma EndKeeps(s: State, a: ActivityId, op: Op, phase: WritePhase)
    requires MemoryInv(s) && a in s.acts && s.acts[a] == Writing(op, phase) && (phase.Destroying? || phase.Mutated?)
    ensures MemoryInv(WriteStep(s, a, op, phase))
  {
    hide MemoryInv, Held, Doomed, ActOk, ViewOf, HasMutex;
    var next := if phase.Destroying? then Mutated else Returning;
    WriterFacts(op, phase);
    WriterFacts(op, next);
    MutatedOk(s, op, next);
    QuietKeeps(s, a, if phase.Destroying? then s.mutex else None, Writing(op, next));
  }

  /** A writer about to use a slot that was never created. */
  predicate UnknownSlot(s: State, x: Activity) {
    x.Writing? && x.phase.Ready? && (x.op.Add? || x.op.CleanUp?) && (x.op.slot !in s.index || x.op.slot !in s.group)
  }

  lemma MemoryParts(s: State, a: ActivityId)
    requires MemoryInv(s) && a in s.acts
    ensures ActOk(s, s.acts[a]) && s.cur in s.heap
  {
  }

  lemma Holding(s: State, a: ActivityId)
    requires MemoryInv(s) && a in s.acts && HasMutex(s.acts[a])
    ensures s.mutex == Some(a)
  {
  }

  lemma HeldCounts(s: State, a: ActivityId, p: PayloadId)
    requires MemoryInv(s) && a in s.acts && Held(s.acts[a]) == Some(p)
    ensures p in s.heap && s.heap[p].count >= 1
  {
    hide Held;
    HolderCounts(s, p, a);
  }

  lemma PhaseOk(s: State, op: Op, phase: WritePhase, next: WritePhase)
    requires s.cur in s.heap
    requires next.Testing? || next.Duplicating? || (next.Ready? && s.heap[s.cur].count == 1)
    ensures ActOk(s, Writing(op, next))
  {
  }

  lemma DroppedOk(s: State, a: ActivityId, op: Op, p: PayloadId)
    requires ActOk(s, Writing(op, Swapped(p))) && s.cur in s.heap && p in s.heap && s.heap[p].count >= 1
    ensures var y := Writing(op, if s.heap[p].count == 1 then Discarding(p) else Ready);
            ActOk(Put(SetPayload(s, p, s.heap[p].(count := s.heap[p].count - 1)), a, y), y)
  {
  }

  /** The mutation writes the current list, the indices and the history, and nothing else. */
  lemma MutateFrame(s: State, op: Op)
    requires s.cur in s.heap && (op.CleanUp? ==> op.slot in s.index)
    requires op.Add? || op.CleanUp? ==> op.slot in s.group
    ensures var t := Mutate(s, op);
            && s.cur in t.heap && t.heap == s.heap[s.cur := s.heap[s.cur].(groups := t.heap[s.cur].groups)]
            && t == s.(heap := t.heap, index := t.index, added := t.added, bulk := t.bulk, cleaned := t.cleaned)
  {
    hide AddSlot, Clean, DisconnectIf, DisconnectGroup, Clear, Flatten;
  }

  lemma ReleaseKeeps(s: State, a: ActivityId, p: PayloadId)
    requires MemoryInv(s) && a in s.acts && Held(s.acts[a]) == Some(p) && !s.acts[a].Writing? && !HasMutex(s.acts[a])
    requires p in s.heap
    ensures MemoryInv(Release(s, a, p))
  {
    hide MemoryInv, Held, Doomed, ActOk, ViewOf, HasMutex;
    ReaderFacts(s.acts[a]);
    HeldCounts(s, a, p);
    if s.heap[p].count == 1 {
      ReaderFacts(Freeing(p));
      FreeingOk(s, a, p);
      DropPutKeeps(s, a, p, Freeing(p));
    } else {
      DropFinishKeeps(s, a, p);
    }
  }

  lemma FreeingOk(s: State, a: ActivityId, p: PayloadId)
    requires p in s.heap && s.heap[p].count == 1
    ensures ActOk(Put(SetPayload(s, p, s.heap[p].(count := s.heap[p].count - 1)), a, Freeing(p)), Freeing(p))
  {
  }

  /** A reader's view survives a change of its cursor or its phase. */
  lemma SameViewOk(s: State, x: Activity, y: Activity)
    requires ActOk(s, x) && !x.Writing? && !y.Writing? && ViewOf(x) == ViewOf(y) && Doomed(x) == Doomed(y)
    ensures ActOk(s, y)
  {
    hide Held, Doomed, ViewOf;
    ReaderFacts(x);
    ReaderFacts(y);
  }

  lemma MoveKeeps(s: State, a: ActivityId, m: Option<ActivityId>, y: Activity)
    requires MemoryInv(s) && a in s.acts && !s.acts[a].Writing? && !y.Writing?
    requires ViewOf(y) == ViewOf(s.acts[a]) && !y.Freeing? && !s.acts[a].Freeing?
    requires if HasMutex(y) == HasMutex(s.acts[a]) then m == s.mutex
             else if HasMutex(y) then s.mutex == None && m == Some(a) else m == None
    ensures MemoryInv(Put(s.(mutex := m), a, y))
  {
    hide MemoryInv, Held, Doomed, ActOk, ViewOf, HasMutex;
    MemoryParts(s, a);
    ReaderFacts(s.acts[a]);
    ReaderFacts(y);
    SameViewOk(s, s.acts[a], y);
    QuietKeeps(s, a, m, y);
  }

  lemma ExchangeKeeps(s: State, slot: SlotId)
    requires MemoryInv(s)
    ensures MemoryInv(Exchange(s, slot))
    ensures forall a :: a in s.acts ==> a in Exchange(s, slot).acts && Exchange(s, slot).acts[a] == s.acts[a]
  {
    hide Held, Doomed, ViewOf, HasMutex, Counted, ActsOk, Exclusive, DoomedOnce, Distinct;
    if slot !in s.disconnected {
      var s1 := s.(disconnected := s.disconnected + {slot});
      EnvironmentKeeps(s, s1);
      WriterFacts(CleanUp(slot), Waiting);
      SpawnKeeps(s1, Writing(CleanUp(slot), Waiting));
    }
  }

  lemma VisitKeeps(s: State, a: ActivityId, slot: SlotId, check: Check)
    requires MemoryInv(s) && a in s.acts && s.acts[a].Emitting?
    ensures MemoryInv(VisitStep(s, a, s.acts[a], slot, check))
  {
    hide MemoryInv, Exchange, Held, Doomed, ViewOf, HasMutex, NextTurn;
    var x := s.acts[a];
    var s1, y := if check.Expired? then Exchange(s, slot) else s, NextTurn(s, x, slot, check);
    if check.Expired? { ExchangeKeeps(s, slot); }
    TurnKeepsView(s, x, slot, check);
    ReaderFacts(x);
    ReaderFacts(y);
    MoveKeeps(s1, a, s1.mutex, y);
  }

  lemma TurnKeepsView(s: State, x: Activity, slot: SlotId, check: Check)
    requires x.Emitting?
    ensures NextTurn(s, x, slot, check).Emitting? && NextTurn(s, x, slot, check).view == x.view
  {
  }

  /** The steps of a reader outside its loop. */
  lemma EnterKeeps(s: State, a: ActivityId)
    requires MemoryInv(s) && a in s.acts && (s.acts[a].Entering? || s.acts[a].Asking? || s.acts[a].Leaving?)
    requires s.acts[a].Asking? ==> s.mutex == None
    ensures MemoryInv(ReadStep(s, a, s.acts[a]))
  {
    hide MemoryInv, Held, Doomed, ViewOf, HasMutex;
    var x := s.acts[a];
    ReaderFacts(x);
    if x.Entering? && s.signalBlocked {
      IdleMutex(s, a);
      FinishKeeps(s, a);
    } else {
      var y := match x
        case Entering => Asking(Emission)
        case Asking(purpose) => Referencing(purpose)
        case Leaving(purpose, v) => if purpose == Emission then Emitting(v, 0, 0, Fetch, []) else Counting(v, 0, 0)
        case _ => x;
      ReaderFacts(y);
      MoveKeeps(s, a, if x.Entering? then s.mutex else if x.Asking? then Some(a) else None, y);
    }
  }

  lemma CountKeeps(s: State, a: ActivityId)
    requires MemoryInv(s) && a in s.acts && s.acts[a].Counting? && s.acts[a].view.p in s.heap
    ensures MemoryInv(CountStep(s, a, s.acts[a]))
  {
    hide MemoryInv, Held, Doomed, ViewOf, HasMutex, Release;
    var x := s.acts[a];
    var groups := s.heap[x.view.p].groups;
    ReaderFacts(x);
    if x.g >= |groups| {
      ReleaseKeeps(s, a, x.view.p);
    } else {
      var y := x.(g := x.g + 1, sum := x.sum + |groups[x.g].slts|);
      ReaderFacts(y);
      MoveKeeps(s, a, s.mutex, y);
    }
  }

  lemma ReadKeeps(s: State, a: ActivityId)
    requires MemoryInv(s) && Enabled(s, Act(a)) && !s.acts[a].Writing?
    ensures MemoryInv(Effect(s, Act(a)))
  {
    hide MemoryInv, After, EmitStep, CountStep;
    var x := s.acts[a];
    ActUnfolds(s, a);
    match x
    case Entering => EnterKeeps(s, a);
    case Asking(_) => EnterKeeps(s, a);
    case Leaving(_, _) => EnterKeeps(s, a);
    case Referencing(purpose) => ReferenceKeeps(s, a, purpose);
    case Emitting(_, _, _, _, _) => EmitKeeps(s, a);
    case Counting(_, _, _) => CountKeeps(s, a);
    case Freeing(p) => DeleteFinishKeeps(s, a, p);
  }

  lemma EmitKeeps(s: State, a: ActivityId)
    requires MemoryInv(s) && a in s.acts && s.acts[a].Emitting? && s.acts[a].view.p in s.heap
    ensures MemoryInv(EmitStep(s, a, s.acts[a]))
  {
    hide MemoryInv, Held, Doomed, ViewOf, HasMutex, VisitStep, Release;
    var x := s.acts[a];
    var groups := s.heap[x.view.p].groups;
    ReaderFacts(x);
    match x.turn
    case Fetch =>
      if x.g >= |groups| {
        ReleaseKeeps(s, a, x.view.p);
      } else {
        var y := if x.i >= |groups[x.g].slts| then x.(g := x.g + 1, i := 0)
                 else x.(turn := Visit(groups[x.g].slts[x.i], CheckConnected));
        ReaderFacts(y);
        MoveKeeps(s, a, s.mutex, y);
      }
    case Visit(slot, check) => VisitKeeps(s, a, slot, check);
  }

  lemma IdleMutex(s: State, a: ActivityId)
    requires MemoryInv(s) && a in s.acts && !HasMutex(s.acts[a])
    ensures s.mutex != Some(a)
  {
  }

  /** Every transition keeps the memory invariant, provided writers only name slots that exist. */
  lemma MemoryStep(s: State, l: Label)
    requires MemoryInv(s) && Enabled(s, l) && (l.Act? ==> !UnknownSlot(s, s.acts[l.a]))
    ensures MemoryInv(After(s, l))
  {
    hide MemoryInv, Effect, UnknownSlot;
    EffectMemory(s, l);
    EnvironmentKeeps(Effect(s, l), After(s, l));
  }

  /** Recording the caller changes nothing else. */
  lemma AfterIsEffect(s: State, l: Label)
    requires Enabled(s, l)
    ensures After(s, l) == Effect(s, l).(parent := After(s, l).parent)
  {
    hide Effect;
  }

  lemma EffectMemory(s: State, l: Label)
    requires MemoryInv(s) && Enabled(s, l) && (l.Act? ==> !UnknownSlot(s, s.acts[l.a]))
    ensures MemoryInv(Effect(s, l))
  {
    hide MemoryInv, Held, Doomed, ViewOf, HasMutex, ActivityStep, Exchange;
    match l
    case CallEmit(_) => ReaderFacts(Entering); SpawnKeeps(s, Entering);
    case CallSlotCount(_) => ReaderFacts(Asking(Count)); SpawnKeeps(s, Asking(Count));
    case CallConnect(slot, gid, obj, _) =>
      var s1 := s.(group := s.group[slot := gid], index := s.index[slot := 0]);
      var s2 := if obj.Some? then s1.(tracks := s1.tracks[slot := obj.value]) else s1;
      EnvironmentKeeps(s, s2);
      WriterFacts(Add(slot), Waiting);
      SpawnKeeps(s2, Writing(Add(slot), Waiting));
    case CallBulk(op, _) => WriterFacts(op, Waiting); SpawnKeeps(s, Writing(op, Waiting));
    case CallDisconnect(slot, _) => ExchangeKeeps(s, slot);
    case SetBlocked(_, _) => EnvironmentKeeps(s, Effect(s, l));
    case BlockSignal(_) => EnvironmentKeeps(s, Effect(s, l));
    case Expire(_) => EnvironmentKeeps(s, Effect(s, l));
    case Act(a) => if s.acts[a].Writing? { WriteKeeps(s, a); } else { ReadKeeps(s, a); }
  }

  lemma InitMemory()
    ensures MemoryInv(INIT)
  {
    forall p: PayloadId ensures HolderCount(INIT.acts, p) == 0 {
      assert Holders(INIT.acts, p) == {};
    }
  }
}
