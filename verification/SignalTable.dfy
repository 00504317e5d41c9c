/** The critical sections of a signal as the loops the source runs, proved against SlotTable. */
module SignalTable {
  import opened SlotTable

  /** The list a signal owns while its mutex is held, with the mIndex field of every slot. */
  class SlotList {
    var groups: seq<Group>
    var index: map<SlotId, nat>
    ghost var group: map<SlotId, int>  // the mGroup field of every slot ever added

    function Contents(): Table
      reads this
    {
      Table(groups, index)
    }

    /** Group ids ascend, and every slot is in its group at its index; so no slot is listed twice. */
    ghost predicate Valid()
      reads this
    {
      WellFormed(Contents(), group)
    }

    ghost function Listed(): set<SlotId>
      reads this
    {
      Slots(groups)
    }

    constructor ()
      ensures Valid() && Listed() == {} && group == map[]
    {
      groups, index, group := [], map[], map[];
    }

    method Append(s: SlotId, gid: int)
      requires Valid() && s !in group
      modifies this
      ensures Valid() && group == old(group)[s := gid] && Listed() == old(Listed()) + {s}
      ensures Contents() == AddSlot(old(Contents()), s, gid)
    {
      NewSlotGroup(Contents(), group, s, gid);
      AddSlotEffect(Contents(), s, gid, group[s := gid]);
      group := group[s := gid];
      hide WellFormed, Slots;
      var it := 0;
      while it < |groups| && groups[it].gid < gid
        invariant it <= LowerBound(groups, gid)
      {
        it := it + 1;
      }
      assert it == LowerBound(groups, gid);
      if it == |groups| || groups[it].gid != gid {
        groups := groups[..it] + [Group(gid, [])] + groups[it..];
      }
      assert groups == WithGroup(old(groups), gid);
      index := index[s := |groups[it].slts|];
      groups := groups[it := Group(groups[it].gid, groups[it].slts + [s])];
    }

    /** The group with id gid, or |groups|. */
    method FindGroup(gid: int) returns (it: nat)
      ensures it == GroupIndex(groups, gid)
    {
      it := 0;
      while it < |groups| && groups[it].gid != gid
        invariant it <= GroupIndex(groups, gid)
      {
        it := it + 1;
      }
    }

    /** Swaps slot k of a group with the last one, renumbers that one, and pops. */
    method RemoveSlot(it: nat, k: nat)
      requires it < |groups| && k < |groups[it].slts|
      modifies `groups, `index
      ensures var slts := old(groups[it].slts);
              && groups == old(groups)[it := Group(old(groups[it].gid), SwapPop(slts, k))]
              && index == old(index)[slts[|slts| - 1] := k]
    {
      var slts := groups[it].slts;
      var last := |slts| - 1;
      slts := slts[k := slts[last]][last := slts[k]];
      index := index[slts[k] := k];
      slts := slts[..last];
      assert slts == SwapPop(old(groups[it].slts), k);
      groups := groups[it := Group(groups[it].gid, slts)];
    }

    method CleanSlot(s: SlotId, gid: int)
      requires Valid() && s in index && s in group && group[s] == gid
      modifies this
      ensures Valid() && group == old(group) && Listed() == old(Listed()) - {s}
      ensures Contents() == Clean(old(Contents()), s, gid)
    {
      CleanEffect(Contents(), s, gid, group);
      hide WellFormed, Slots;
      var idx := index[s];
      var it := FindGroup(gid);
      if it < |groups| && idx < |groups[it].slts| && groups[it].slts[idx] == s {
        RemoveSlot(it, idx);
      }
    }

    method RemoveIf(matching: set<SlotId>) returns (count: nat)
      requires Valid()
      modifies `groups, `index
      ensures Valid() && Listed() == old(Listed()) - matching && count == |old(Listed()) * matching|
      ensures (Contents(), count) == DisconnectIf(old(Contents()), matching)
    {
      hide SweepGroup, SweepFrom, SwapPop, WellFormed, Slots;
      DisconnectIfEffect(Contents(), matching, group);
      count := 0;
      var it: nat := 0;
      while it < |groups|
        invariant it <= |groups|
        invariant Plus(SweepFrom(Contents(), it, matching), count) == SweepFrom(old(Contents()), 0, matching)
        decreases |groups| - it
      {
        SweepFromStep(Contents(), it, matching);
        var n := RemoveIfIn(it, matching);
        count := count + n;
        it := it + 1;
      }
      SweepFromStep(Contents(), it, matching);
    }

    /** The inner loop: a removal leaves position i in place, since the last slot has moved there. */
    method RemoveIfIn(it: nat, matching: set<SlotId>) returns (count: nat)
      requires it < |groups|
      modifies `groups, `index
      ensures (Contents(), count) == SweepGroup(old(Contents()), it, 0, matching)
    {
      hide SweepGroup, SwapPop;
      count := 0;
      var i: nat := 0;
      while i < |groups[it].slts|
        invariant it < |groups| && i <= |groups[it].slts|
        invariant Plus(SweepGroup(Contents(), it, i, matching), count) == SweepGroup(old(Contents()), it, 0, matching)
        decreases |groups[it].slts| - i
      {
        SweepGroupStep(Contents(), it, i, matching);
        if groups[it].slts[i] in matching {
          RemoveSlot(it, i);
          count := count + 1;
        } else {
          i := i + 1;
        }
      }
      SweepGroupStep(Contents(), it, i, matching);
    }

    method RemoveGroup(gid: int) returns (count: nat)
      requires Valid()
      modifies `groups
      ensures Valid() && Listed() == old(Listed()) - InGroup(old(groups), gid, group)
      ensures count == |InGroup(old(groups), gid, group)|
      ensures (Contents(), count) == DisconnectGroup(old(Contents()), gid)
    {
      DisconnectGroupEffect(Contents(), gid, group);
      hide WellFormed, Slots;
      var it := FindGroup(gid);
      if it < |groups| {
        count := |groups[it].slts|;
        groups := groups[it := Group(groups[it].gid, [])];
      } else {
        count := 0;
      }
    }

    method RemoveAll()
      modifies `groups
      ensures Valid() && Listed() == {} && Contents() == Clear(old(Contents()))
    {
      groups := [];
    }

    /** slot_count counts every listed slot once. */
    method SlotCount() returns (count: nat)
      requires Valid()
      ensures count == |Listed()|
    {
      WellFormedIsShaped(Contents(), group);
      hide WellFormed, Shaped, Slots;
      count := 0;
      var it := 0;
      while it < |groups|
        invariant it <= |groups| && count == Total(groups[..it])
      {
        assert groups[..it + 1][..it] == groups[..it];
        count := count + |groups[it].slts|;
        it := it + 1;
      }
      assert groups[..it] == groups;
      TotalIsCard(groups, group);
    }
  }

  function Plus(r: (Table, nat), n: nat): (Table, nat) { (r.0, r.1 + n) }

  lemma SweepGroupStep(t: Table, i: nat, k: nat, matching: set<SlotId>)
    requires i < |t.groups|
    ensures var slts := t.groups[i].slts;
            SweepGroup(t, i, k, matching) ==
              if k >= |slts| then (t, 0)
              else if slts[k] in matching then
                Plus(SweepGroup(Table(t.groups[i := Group(t.groups[i].gid, SwapPop(slts, k))],
                                      t.index[slts[|slts| - 1] := k]), i, k, matching), 1)
              else SweepGroup(t, i, k + 1, matching)
  {
    hide SwapPop;
  }

  lemma SweepFromStep(t: Table, i: nat, matching: set<SlotId>)
    requires i <= |t.groups|
    ensures SweepFrom(t, i, matching) ==
              if i == |t.groups| then (t, 0)
              else
                var u := SweepGroup(t, i, 0, matching);
                Plus(SweepFrom(u.0, i + 1, matching), u.1)
  {
    hide SweepGroup;
  }
}
