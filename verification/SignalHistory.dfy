/** What the flags and properties of slots are in every run, in terms of the calls made so far. */
module SignalHistory {
  import opened Wrappers
  import opened SlotTable
  import opened SignalProtocol
  import opened SignalMemory
  import opened SignalSlots
  import opened SignalInvariant
  import opened SignalRuns
  import opened SignalEffects

  // ----- one transition

  /** The emission that acts finds the object of the slot gone. */
  predicate FindsGone(s: State, l: Label, slot: SlotId) {
    l.Act? && l.a in s.acts && s.acts[l.a].Emitting? && s.acts[l.a].turn == Visit(slot, Expired)
  }

  /** The transition disconnects the slot. */
  predicate Disconnects(s: State, l: Label, slot: SlotId) {
    (l.CallDisconnect? && l.slot == slot) || FindsGone(s, l, slot)
  }

  lemma DisconnectStep(s: State, l: Label, slot: SlotId)
    requires Inv(s) && Enabled(s, l)
    ensures slot in After(s, l).disconnected <==> slot in s.disconnected || Disconnects(s, l, slot)
  {
    hide MemoryInv, SlotsInv, CursorsInv, PinsInv, WriteStep, ReadStep, After, Effect;
    if l.Act? {
      var a, x := l.a, s.acts[l.a];
      ActUnfolds(s, a);
      if x.Writing? {
        WriteGrows(s, a, x.op, x.phase);
      } else if x.Emitting? && x.turn.Visit? {
        VisitDisconnects(s, a, slot);
      } else {
        ReadLedger(s, a, x);
        hide ListOf;
      }
    } else {
      AfterIsEffect(s, l);
      CallDisconnects(s, l, slot);
    }
  }

  lemma VisitDisconnects(s: State, a: ActivityId, other: SlotId)
    requires a in s.acts && s.acts[a].Emitting? && s.acts[a].turn.Visit? && s.acts[a].view.p in s.heap
    ensures other in ReadStep(s, a, s.acts[a]).disconnected <==> other in s.disconnected || FindsGone(s, Act(a), other)
  {
    hide NextTurn, Exchange, Put;
    var x := s.acts[a];
    var slot, check := x.turn.slot, x.turn.check;
    ExchangeDisconnects(s, slot);
    PutSame(if check.Expired? then Exchange(s, slot) else s, a, NextTurn(s, x, slot, check));
  }

  lemma ExchangeDisconnects(s: State, slot: SlotId)
    ensures Exchange(s, slot).disconnected == s.disconnected + {slot}
  {
  }

  lemma CallDisconnects(s: State, l: Label, slot: SlotId)
    requires Enabled(s, l) && !l.Act?
    ensures slot in Effect(s, l).disconnected <==> slot in s.disconnected || Disconnects(s, l, slot)
  {
    hide Enabled, Connected, Exchange;
    match l
    case CallConnect(x, gid, obj, _) => ConnectedFields(s, x, gid, obj);
    case CallDisconnect(x, _) => ExchangeDisconnects(s, x);
    case CallEmit(_) =>
    case CallSlotCount(_) =>
    case CallBulk(_, _) =>
    case SetBlocked(_, _) =>
    case BlockSignal(_) =>
    case Expire(_) =>
  }

  /** What the calls that set flags and create slots do, and that nothing else does it. */
  lemma FlagStep(s: State, l: Label, slot: SlotId, obj: ObjectId)
    requires Inv(s) && Enabled(s, l)
    ensures var t := After(s, l);
            && (slot in t.blocked <==> if l.SetBlocked? && l.slot == slot then l.on else slot in s.blocked)
            && (t.signalBlocked <==> if l.BlockSignal? then l.on else s.signalBlocked)
            && (obj in t.expired <==> obj in s.expired || l == Expire(obj))
  {
    hide Inv, After, Follows;
    StepFollows(s, l);
    if !l.Act? {
      AfterIsEffect(s, l);
      CallFlags(s, l, slot, obj);
      hide Effect;
    }
  }

  lemma CallFlags(s: State, l: Label, slot: SlotId, obj: ObjectId)
    requires Enabled(s, l) && !l.Act?
    ensures var t := Effect(s, l);
            && (slot in t.blocked <==> if l.SetBlocked? && l.slot == slot then l.on else slot in s.blocked)
            && (t.signalBlocked <==> if l.BlockSignal? then l.on else s.signalBlocked)
            && (obj in t.expired <==> obj in s.expired || l == Expire(obj))
  {
    hide Enabled, Connected, Exchange;
    match l
    case CallConnect(x, gid, o, _) => ConnectedFields(s, x, gid, o);
    case CallDisconnect(x, _) => ExchangeFlags(s, x);
    case CallEmit(_) =>
    case CallSlotCount(_) =>
    case CallBulk(_, _) =>
    case SetBlocked(_, _) =>
    case BlockSignal(_) =>
    case Expire(_) =>
  }

  lemma ExchangeFlags(s: State, slot: SlotId)
    ensures var t := Exchange(s, slot);
            t.blocked == s.blocked && t.signalBlocked == s.signalBlocked && t.expired == s.expired
  {
  }

  // ----- runs

  /** Whether the last block or unblock call for the slot before state k blocked it. */
  function LastBlocked(labels: seq<Label>, k: nat, slot: SlotId): bool
    requires k <= |labels|
  {
    k > 0 &&
    var l := labels[k - 1];
    if l.SetBlocked? && l.slot == slot then l.on else LastBlocked(labels, k - 1, slot)
  }

  /** The same for the whole signal. */
  function LastSignalBlocked(labels: seq<Label>, k: nat): bool
    requires k <= |labels|
  {
    k > 0 && if labels[k - 1].BlockSignal? then labels[k - 1].on else LastSignalBlocked(labels, k - 1)
  }

  /** A slot is blocked exactly if it was last blocked, not unblocked; likewise the signal. An object is gone
  exactly if it has expired. A slot is disconnected exactly if a disconnect call was made for it, or an emission
  found its object gone. */
  lemma {:induction false} FlagsAreHistory(
    states: seq<State>, labels: seq<Label>, k: nat, slot: SlotId, obj: ObjectId)
    requires Run(states, labels) && k < |states|
    ensures slot in states[k].blocked <==> LastBlocked(labels, k, slot)
    ensures states[k].signalBlocked <==> LastSignalBlocked(labels, k)
    ensures obj in states[k].expired <==> exists m :: 0 <= m < k && labels[m] == Expire(obj)
    ensures slot in states[k].disconnected <==> exists m :: 0 <= m < k && Disconnects(states[m], labels[m], slot)
    decreases k
  {
    hide Inv, After, Enabled, Disconnects;
    if k == 0 {
    } else {
      FlagsAreHistory(states, labels, k - 1, slot, obj);
      InvRun(states, labels, k - 1);
      FlagStep(states[k - 1], labels[k - 1], slot, obj);
      DisconnectStep(states[k - 1], labels[k - 1], slot);
    }
  }

  /** A slot has, for ever, the group and the tracked object it was connected with. */
  lemma {:induction false} SlotAsConnected(states: seq<State>, labels: seq<Label>, j: nat, k: nat)
    requires Run(states, labels) && j < k < |states| && labels[j].CallConnect?
    ensures var l, s := labels[j], states[k];
            && l.slot in s.group && s.group[l.slot] == l.gid
            && (if l.tracked.Some? then l.slot in s.tracks && s.tracks[l.slot] == l.tracked.value
                else l.slot !in s.tracks)
    decreases k
  {
    hide Inv, After, Enabled, Follows;
    var l := labels[j];
    InvRun(states, labels, k - 1);
    if k == j + 1 {
      JustConnected(states[j], l);
    } else {
      SlotAsConnected(states, labels, j, k - 1);
      StepFollows(states[k - 1], labels[k - 1]);
      SameTracks(states[k - 1], labels[k - 1], l.slot);
      SameGroups(states[k - 1], labels[k - 1], l.slot);
    }
  }

  lemma JustConnected(s: State, l: Label)
    requires Inv(s) && l.CallConnect? && Enabled(s, l)
    ensures var t := After(s, l);
            && l.slot in t.group && t.group[l.slot] == l.gid
            && (if l.tracked.Some? then l.slot in t.tracks && t.tracks[l.slot] == l.tracked.value
                else l.slot !in t.tracks)
  {
    hide MemoryInv, SlotsInv, CursorsInv, After;
    ConnectIs(s, l);
    assert l.slot !in s.tracks.Keys;
  }

  lemma SameGroups(s: State, l: Label, slot: SlotId)
    requires Enabled(s, l) && slot in s.group && Grows(s, l, After(s, l))
    ensures slot in After(s, l).group && After(s, l).group[slot] == s.group[slot]
  {
    hide After, Connected;
    if l.CallConnect? {
      ConnectIs(s, l);
      ConnectedFields(s, l.slot, l.gid, l.tracked);
    }
  }
}
