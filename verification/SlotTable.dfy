/** The slot table of a signal: groups in ascending order of group id, each an unordered vector of slots
whose back-index allows removal by swap and pop. These functions say what each operation under the
lock computes; SignalTable holds the loops. */
module SlotTable {

  type SlotId = nat

  datatype Group = Group(gid: int, slts: seq<SlotId>)

  /** The groups, and every slot's mIndex. A removed slot keeps its last index. */
  datatype Table = Table(groups: seq<Group>, index: map<SlotId, nat>)

  // ----- well-formed tables

  ghost predicate Ascending(t: seq<Group>) {
    forall i, j :: 0 <= i < j < |t| ==> t[i].gid < t[j].gid
  }

  /** Every slot is in the group it was created for. */
  ghost predicate Grouped(t: seq<Group>, group: map<SlotId, int>) {
    forall i, s :: 0 <= i < |t| && s in t[i].slts ==> s in group && group[s] == t[i].gid
  }

  ghost predicate Distinct<T>(s: seq<T>) {
    forall j, k :: 0 <= j < k < |s| ==> s[j] != s[k]
  }

  /** What a snapshot keeps for ever. */
  ghost predicate Shaped(t: seq<Group>, group: map<SlotId, int>) {
    && Ascending(t) && Grouped(t, group)
    && forall i :: 0 <= i < |t| ==> Distinct(t[i].slts)
  }

  /** Every slot's index is its position. */
  ghost predicate IndexedIn(slts: seq<SlotId>, index: map<SlotId, nat>) {
    forall k :: 0 <= k < |slts| ==> slts[k] in index && index[slts[k]] == k
  }

  /** What the current table keeps at every moment outside a critical section. */
  ghost predicate WellFormed(t: Table, group: map<SlotId, int>) {
    && Ascending(t.groups) && Grouped(t.groups, group)
    && forall i :: 0 <= i < |t.groups| ==> IndexedIn(t.groups[i].slts, t.index)
  }

  lemma WellFormedIsShaped(t: Table, group: map<SlotId, int>)
    requires WellFormed(t, group)
    ensures Shaped(t.groups, group)
  {
    forall i | 0 <= i < |t.groups| ensures Distinct(t.groups[i].slts) {
      var slts := t.groups[i].slts;
      forall j, k | 0 <= j < k < |slts| ensures slts[j] != slts[k] {
        assert t.index[slts[j]] == j && t.index[slts[k]] == k;
      }
    }
  }

  // ----- contents

  /** The listed slots. */
  ghost function Slots(t: seq<Group>): set<SlotId> {
    set i, s | 0 <= i < |t| && s in t[i].slts :: s
  }

  function Elems<T>(s: seq<T>): set<T> {
    set x | x in s
  }

  /** The slots in emission order. */
  function Flatten(t: seq<Group>): seq<SlotId> {
    if t == [] then [] else Flatten(t[..|t| - 1]) + t[|t| - 1].slts
  }

  lemma {:induction false} FlattenElems(t: seq<Group>)
    ensures Elems(Flatten(t)) == Slots(t)
  {
    if t == [] {
    } else {
      var n := |t| - 1;
      FlattenElems(t[..n]);
      assert Slots(t) == Slots(t[..n]) + Elems(t[n].slts) by {
        forall s | s in Slots(t) ensures s in Slots(t[..n]) + Elems(t[n].slts) {
          var i :| 0 <= i < |t| && s in t[i].slts;
          if i < n { assert t[..n][i] == t[i]; }
        }
        forall s | s in Slots(t[..n]) + Elems(t[n].slts) ensures s in Slots(t) {
          if s in Slots(t[..n]) {
            var i :| 0 <= i < n && s in t[..n][i].slts;
            assert s in t[i].slts;
          }
        }
      }
    }
  }

  lemma {:induction false} DistinctCard<T>(s: seq<T>)
    requires Distinct(s)
    ensures |Elems(s)| == |s|
  {
    if s == [] {
    } else {
      var n := |s| - 1;
      DistinctCard(s[..n]);
      assert Elems(s) == Elems(s[..n]) + {s[n]};
      assert s[n] !in Elems(s[..n]);
    }
  }

  /** A slot is listed at most once, and groups come in ascending order of id. */
  lemma {:induction false} FlattenShape(t: seq<Group>, group: map<SlotId, int>)
    requires Shaped(t, group)
    ensures Distinct(Flatten(t))
    ensures forall s :: s in Flatten(t) ==> s in group && t != [] && group[s] <= t[|t| - 1].gid
    ensures forall j, k :: 0 <= j < k < |Flatten(t)| ==> group[Flatten(t)[j]] <= group[Flatten(t)[k]]
  {
    if t == [] {
    } else {
      var n := |t| - 1;
      assert forall i :: 0 <= i < n ==> t[..n][i] == t[i];
      FlattenShape(t[..n], group);
      var rest, last := Flatten(t[..n]), t[n].slts;
      assert forall s :: s in last ==> group[s] == t[n].gid;
      assert forall s :: s in rest ==> group[s] < t[n].gid;
      JoinShape(rest, last, group);
    }
  }

  lemma JoinShape(a: seq<SlotId>, b: seq<SlotId>, group: map<SlotId, int>)
    requires Distinct(a) && Distinct(b)
    requires forall s :: s in a + b ==> s in group
    requires forall s, r :: s in a && r in b ==> group[s] < group[r]
    requires forall s, r :: s in b && r in b ==> group[s] == group[r]
    requires forall j, k :: 0 <= j < k < |a| ==> group[a[j]] <= group[a[k]]
    ensures Distinct(a + b)
    ensures forall j, k :: 0 <= j < k < |a + b| ==> group[(a + b)[j]] <= group[(a + b)[k]]
  {
    var c := a + b;
    forall j, k | 0 <= j < k < |c| ensures c[j] != c[k] && group[c[j]] <= group[c[k]] {
      if j < |a| && k >= |a| {
        assert c[j] in a && c[k] in b;
      } else if j >= |a| {
        assert c[j] == b[j - |a|] && c[k] == b[k - |a|];
      }
    }
  }

  /** The sum slot_count computes. */
  function Total(t: seq<Group>): nat {
    if t == [] then 0 else Total(t[..|t| - 1]) + |t[|t| - 1].slts|
  }

  lemma {:induction false} TotalIsCard(t: seq<Group>, group: map<SlotId, int>)
    requires Shaped(t, group)
    ensures Total(t) == |Slots(t)|
  {
    TotalLength(t);
    FlattenShape(t, group);
    DistinctCard(Flatten(t));
    FlattenElems(t);
  }

  lemma {:induction false} TotalLength(t: seq<Group>)
    ensures Total(t) == |Flatten(t)|
  {
    if t == [] {
    } else {
      TotalLength(t[..|t| - 1]);
    }
  }

  /** Replacing one group's vector changes only its own slots. */
  lemma SlotsUpdate(t: seq<Group>, i: nat, slts: seq<SlotId>)
    requires i < |t|
    requires forall j :: 0 <= j < |t| && j != i ==> Elems(t[j].slts) !! Elems(t[i].slts) + Elems(slts)
    ensures Slots(t[i := t[i].(slts := slts)]) == Slots(t) - Elems(t[i].slts) + Elems(slts)
  {
    var u := t[i := t[i].(slts := slts)];
    forall s | s in Slots(u) ensures s in Slots(t) - Elems(t[i].slts) + Elems(slts) {
      var j :| 0 <= j < |u| && s in u[j].slts;
      if j != i { assert s in Elems(t[j].slts) && s in t[j].slts; }
    }
    forall s | s in Slots(t) - Elems(t[i].slts) + Elems(slts) ensures s in Slots(u) {
      if s in slts {
        assert s in u[i].slts;
      } else {
        var j :| 0 <= j < |t| && s in t[j].slts;
        assert s in u[j].slts;
      }
    }
  }

  // ----- adding a slot

  /** Where the first group with id at least gid is. */
  function LowerBound(t: seq<Group>, gid: int): (i: nat)
    ensures i <= |t| && (i < |t| ==> t[i].gid >= gid)
    ensures forall j :: 0 <= j < i ==> t[j].gid < gid
  {
    if t == [] || t[0].gid >= gid then 0 else 1 + LowerBound(t[1..], gid)
  }

  /** The groups with one for gid present, inserted in order when missing. */
  function WithGroup(t: seq<Group>, gid: int): (u: seq<Group>)
    ensures LowerBound(t, gid) < |u| && u[LowerBound(t, gid)].gid == gid
  {
    var i := LowerBound(t, gid);
    if i == |t| || t[i].gid != gid then t[..i] + [Group(gid, [])] + t[i..] else t
  }

  function AddSlot(t: Table, s: SlotId, gid: int): Table {
    var i, groups := LowerBound(t.groups, gid), WithGroup(t.groups, gid);
    var slts := groups[i].slts;
    Table(groups[i := Group(gid, slts + [s])], t.index[s := |slts|])
  }

  lemma WithGroupKeeps(t: seq<Group>, index: map<SlotId, nat>, gid: int, group: map<SlotId, int>)
    requires WellFormed(Table(t, index), group)
    ensures WellFormed(Table(WithGroup(t, gid), index), group)
    ensures Slots(WithGroup(t, gid)) == Slots(t)
  {
    hide LowerBound, Slots, Ascending, Grouped;
    var i := LowerBound(t, gid);
    if i == |t| || t[i].gid != gid {
      InsertSlots(t, i, gid);
      InsertGroup(t, i, gid, group);
      InsertIndexed(t, i, gid, index);
    }
  }

  lemma InsertSlots(t: seq<Group>, i: nat, gid: int)
    requires i <= |t|
    ensures Slots(t[..i] + [Group(gid, [])] + t[i..]) == Slots(t)
  {
    var u := t[..i] + [Group(gid, [])] + t[i..];
    forall s | s in Slots(u) ensures s in Slots(t) {
      var j :| 0 <= j < |u| && s in u[j].slts;
      assert u[j] == t[if j < i then j else j - 1];
    }
    forall s | s in Slots(t) ensures s in Slots(u) {
      var j :| 0 <= j < |t| && s in t[j].slts;
      assert t[j] == u[if j < i then j else j + 1];
    }
  }

  lemma InsertGroup(t: seq<Group>, i: nat, gid: int, group: map<SlotId, int>)
    requires i <= |t| && Ascending(t) && Grouped(t, group)
    requires (forall j :: 0 <= j < i ==> t[j].gid < gid) && (i < |t| ==> t[i].gid > gid)
    ensures Ascending(t[..i] + [Group(gid, [])] + t[i..])
    ensures Grouped(t[..i] + [Group(gid, [])] + t[i..], group)
  {
  }

  lemma InsertIndexed(t: seq<Group>, i: nat, gid: int, index: map<SlotId, nat>)
    requires i <= |t| && forall j :: 0 <= j < |t| ==> IndexedIn(t[j].slts, index)
    ensures var u := t[..i] + [Group(gid, [])] + t[i..];
            forall j :: 0 <= j < |u| ==> IndexedIn(u[j].slts, index)
  {
  }

  lemma AddSlotEffect(t: Table, s: SlotId, gid: int, group: map<SlotId, int>)
    requires WellFormed(t, group) && s in group && group[s] == gid && s !in Slots(t.groups)
    ensures WellFormed(AddSlot(t, s, gid), group)
    ensures Slots(AddSlot(t, s, gid).groups) == Slots(t.groups) + {s}
  {
    hide Slots, LowerBound, WithGroup;
    WithGroupKeeps(t.groups, t.index, gid, group);
    var i, u := LowerBound(t.groups, gid), WithGroup(t.groups, gid);
    var slts := u[i].slts;
    NotListed(u, s);
    Separate(u, group, i);
    assert Elems(slts + [s]) == Elems(slts) + {s};
    assert forall j :: 0 <= j < |u| && j != i ==> s !in Elems(u[j].slts);
    SlotsUpdate(u, i, slts + [s]);
    InSlots(u, i);
  }

  /** The slots of one group, in order. */
  function Members(t: seq<Group>, gid: int): seq<SlotId> {
    if t == [] then [] else if t[0].gid == gid then t[0].slts else Members(t[1..], gid)
  }

  /** The groups after slot s is added to group gid. */
  function Appended(t: seq<Group>, s: SlotId, gid: int): seq<Group> {
    var i, u := LowerBound(t, gid), WithGroup(t, gid);
    u[i := Group(gid, u[i].slts + [s])]
  }

  lemma AppendedHere(t: seq<Group>, s: SlotId, gid: int)
    requires t == [] || t[0].gid >= gid
    ensures Appended(t, s, gid) ==
              if t != [] && t[0].gid == gid then [Group(gid, t[0].slts + [s])] + t[1..] else [Group(gid, [s])] + t
  {
    assert [] + [s] == [s];
  }

  lemma AppendedLater(t: seq<Group>, s: SlotId, gid: int)
    requires t != [] && t[0].gid < gid
    ensures Appended(t, s, gid) == [t[0]] + Appended(t[1..], s, gid)
  {
    assert WithGroup(t, gid) == [t[0]] + WithGroup(t[1..], gid);
  }

  lemma MembersCons(x: Group, rest: seq<Group>, g: int)
    ensures Members([x] + rest, g) == if x.gid == g then x.slts else Members(rest, g)
  {
    assert ([x] + rest)[1..] == rest;
  }

  /** A new slot comes last in its group, and the other groups stay as they are. */
  lemma {:induction false} AddSlotAppends(t: seq<Group>, index: map<SlotId, nat>, s: SlotId, gid: int, g: int)
    requires Ascending(t)
    ensures Members(AddSlot(Table(t, index), s, gid).groups, g) == Members(t, g) + if g == gid then [s] else []
    decreases t
  {
    assert AddSlot(Table(t, index), s, gid).groups == Appended(t, s, gid);
    if t == [] || t[0].gid >= gid {
      AppendedHere(t, s, gid);
      hide Appended, AddSlot;
      if t != [] && t[0].gid == gid {
        MembersCons(Group(gid, t[0].slts + [s]), t[1..], g);
      } else {
        MembersCons(Group(gid, [s]), t, g);
        if g == gid { GreaterOnly(t, g); }
      }
    } else {
      AddSlotAppends(t[1..], index, s, gid, g);
      assert AddSlot(Table(t[1..], index), s, gid).groups == Appended(t[1..], s, gid);
      AppendedLater(t, s, gid);
      hide Appended, AddSlot;
      MembersCons(t[0], Appended(t[1..], s, gid), g);
      assert t == [t[0]] + t[1..];
      MembersCons(t[0], t[1..], g);
    }
  }

  lemma {:induction false} GreaterOnly(t: seq<Group>, g: int)
    requires forall i :: 0 <= i < |t| ==> t[i].gid != g
    ensures Members(t, g) == []
  {
    if t == [] {
    } else {
      GreaterOnly(t[1..], g);
    }
  }

  lemma NotListed(t: seq<Group>, s: SlotId)
    requires s !in Slots(t)
    ensures forall i :: 0 <= i < |t| ==> s !in t[i].slts
  {
  }

  lemma InSlots(t: seq<Group>, i: nat)
    requires i < |t|
    ensures Elems(t[i].slts) <= Slots(t)
  {
  }

  /** Different groups hold different slots. */
  lemma Separate(t: seq<Group>, group: map<SlotId, int>, i: nat)
    requires Ascending(t) && Grouped(t, group) && i < |t|
    ensures forall j :: 0 <= j < |t| && j != i ==> Elems(t[j].slts) !! Elems(t[i].slts)
  {
    forall j | 0 <= j < |t| && j != i ensures Elems(t[j].slts) !! Elems(t[i].slts) {
      assert t[j].gid != t[i].gid by {
        if j < i { assert t[j].gid < t[i].gid; } else { assert t[i].gid < t[j].gid; }
      }
      forall s | s in Elems(t[j].slts) ensures s !in Elems(t[i].slts) {
        assert group[s] == t[j].gid;
      }
    }
  }

  // ----- creating a slot

  lemma GroupedGrows(t: seq<Group>, group: map<SlotId, int>, slot: SlotId, gid: int)
    requires Grouped(t, group) && slot !in group
    ensures Grouped(t, group[slot := gid])
  {
  }

  /** A new slot with a fresh index does not disturb the table. */
  lemma WellFormedGrows(t: Table, group: map<SlotId, int>, slot: SlotId, gid: int)
    requires WellFormed(t, group) && slot !in group
    ensures WellFormed(t.(index := t.index[slot := 0]), group[slot := gid])
  {
    GroupedGrows(t.groups, group, slot, gid);
    forall i | 0 <= i < |t.groups| ensures IndexedIn(t.groups[i].slts, t.index[slot := 0]) {
      assert slot !in t.groups[i].slts;
      IndexUnchanged(t.groups[i].slts, t.index, slot, 0);
    }
  }

  lemma NewSlotGroup(t: Table, group: map<SlotId, int>, slot: SlotId, gid: int)
    requires WellFormed(t, group) && slot !in group
    ensures WellFormed(t, group[slot := gid]) && slot !in Slots(t.groups)
  {
    GroupedGrows(t.groups, group, slot, gid);
  }

  // ----- removing one slot

  /** Swap with the last element, then pop. */
  function SwapPop<T>(s: seq<T>, k: nat): (r: seq<T>)
    requires k < |s|
    ensures |r| == |s| - 1
    ensures forall j :: 0 <= j < |r| ==> r[j] == if j == k then s[|s| - 1] else s[j]
  {
    s[k := s[|s| - 1]][..|s| - 1]
  }

  lemma SwapPopEffect(slts: seq<SlotId>, k: nat, index: map<SlotId, nat>)
    requires k < |slts| && IndexedIn(slts, index)
    ensures IndexedIn(SwapPop(slts, k), index[slts[|slts| - 1] := k])
    ensures Elems(SwapPop(slts, k)) == Elems(slts) - {slts[k]}
  {
    var r, n := SwapPop(slts, k), |slts| - 1;
    forall j | 0 <= j < |r| ensures r[j] != slts[k] {
      assert index[slts[j]] == j && index[slts[k]] == k && index[slts[n]] == n;
    }
    forall s | s in Elems(slts) - {slts[k]} ensures s in r {
      var j :| 0 <= j < |slts| && slts[j] == s;
      assert r[if j == n then k else j] == s;
    }
  }

  /** Swap and pop removes one occurrence of the k-th element, and nothing else. */
  lemma SwapPopMultiset<T>(s: seq<T>, k: nat)
    requires k < |s|
    ensures multiset(SwapPop(s, k)) == multiset(s) - multiset{s[k]}
  {
    hide SwapPop;
    var n := |s| - 1;
    if k < n {
      SwapPopParts(s, k);
      ExchangeEnds(s[..k], s[k], s[k + 1..n], s[n], s, SwapPop(s, k));
    } else {
      SwapPopLast(s);
    }
  }

  lemma SwapPopParts<T>(s: seq<T>, k: nat)
    requires k + 1 < |s|
    ensures var n := |s| - 1;
            s == s[..k] + [s[k]] + s[k + 1..n] + [s[n]] && SwapPop(s, k) == s[..k] + [s[n]] + s[k + 1..n]
  {
  }

  lemma SwapPopLast<T>(s: seq<T>)
    requires s != []
    ensures multiset(SwapPop(s, |s| - 1)) == multiset(s) - multiset{s[|s| - 1]}
  {
    var n := |s| - 1;
    assert SwapPop(s, n) == s[..n] && s == s[..n] + [s[n]];
  }

  lemma ExchangeEnds<T>(a: seq<T>, x: T, b: seq<T>, y: T, s: seq<T>, r: seq<T>)
    requires s == a + [x] + b + [y] && r == a + [y] + b
    ensures multiset(r) == multiset(s) - multiset{x}
  {
  }

  function GroupIndex(t: seq<Group>, gid: int): (i: nat)
    ensures i <= |t| && (i < |t| ==> t[i].gid == gid)
    ensures forall j :: 0 <= j < i ==> t[j].gid != gid
  {
    if t == [] || t[0].gid == gid then 0 else 1 + GroupIndex(t[1..], gid)
  }

  /** `clean`: removes s if it is still where its index says. */
  function Clean(t: Table, s: SlotId, gid: int): Table
    requires s in t.index
  {
    var i, idx := GroupIndex(t.groups, gid), t.index[s];
    if i < |t.groups| && idx < |t.groups[i].slts| && t.groups[i].slts[idx] == s then
      var slts := t.groups[i].slts;
      Table(t.groups[i := Group(gid, SwapPop(slts, idx))], t.index[slts[|slts| - 1] := idx])
    else t
  }

  /** Removal by index is removal of the slot itself, whether or not it is still listed. */
  lemma CleanEffect(t: Table, s: SlotId, gid: int, group: map<SlotId, int>)
    requires WellFormed(t, group) && s in t.index && s in group && group[s] == gid
    ensures WellFormed(Clean(t, s, gid), group)
    ensures Slots(Clean(t, s, gid).groups) == Slots(t.groups) - {s}
    ensures Clean(t, s, gid).index.Keys == t.index.Keys
  {
    hide Slots, SwapPop, GroupIndex;
    var i, idx := GroupIndex(t.groups, gid), t.index[s];
    if i < |t.groups| && idx < |t.groups[i].slts| && t.groups[i].slts[idx] == s {
      RemoveAt(t, i, idx, group);
    } else {
      WhereListed(t, s, gid, group);
    }
  }

  /** A listed slot is where its index says. */
  lemma WhereListed(t: Table, s: SlotId, gid: int, group: map<SlotId, int>)
    requires WellFormed(t, group) && s in t.index && s in group && group[s] == gid
    ensures var i := GroupIndex(t.groups, gid);
            s in Slots(t.groups) ==>
              i < |t.groups| && t.index[s] < |t.groups[i].slts| && t.groups[i].slts[t.index[s]] == s
  {
    hide GroupIndex;
    if s in Slots(t.groups) {
      var j :| 0 <= j < |t.groups| && s in t.groups[j].slts;
      var slts := t.groups[j].slts;
      var k :| 0 <= k < |slts| && slts[k] == s;
      assert t.groups[j].gid == gid && t.index[s] == k;
      var i := GroupIndex(t.groups, gid);
      assert i <= j && t.groups[i].gid == gid;
      SameGroup(t.groups, i, j);
    }
  }

  lemma SameGroup(t: seq<Group>, i: nat, j: nat)
    requires Ascending(t) && i <= j < |t| && t[i].gid == t[j].gid
    ensures i == j
  {
  }

  lemma RemoveAt(t: Table, i: nat, k: nat, group: map<SlotId, int>)
    requires WellFormed(t, group) && i < |t.groups| && k < |t.groups[i].slts|
    ensures var slts := t.groups[i].slts;
            var u := Table(t.groups[i := Group(t.groups[i].gid, SwapPop(slts, k))], t.index[slts[|slts| - 1] := k]);
            WellFormed(u, group) && Slots(u.groups) == Slots(t.groups) - {slts[k]} && u.index.Keys == t.index.Keys
  {
    hide Slots, SwapPop;
    var slts := t.groups[i].slts;
    var rest, back := SwapPop(slts, k), slts[|slts| - 1];
    var u := Table(t.groups[i := t.groups[i].(slts := rest)], t.index[back := k]);
    SwapPopEffect(slts, k, t.index);
    Separate(t.groups, group, i);
    assert Elems(rest) <= Elems(slts);
    SlotsUpdate(t.groups, i, rest);
    InSlots(t.groups, i);
    assert slts[k] in Elems(slts);
    OthersAbsent(t.groups, i, slts[k], group);
    assert forall s :: s in rest ==> s in slts by {
      forall s | s in rest ensures s in slts { assert s in Elems(rest); }
    }
    forall j | 0 <= j < |u.groups| ensures IndexedIn(u.groups[j].slts, u.index) {
      if j != i {
        assert back in Elems(slts) && back !in Elems(t.groups[j].slts);
        IndexUnchanged(t.groups[j].slts, t.index, back, k);
      }
    }
    assert t.index.Keys == u.index.Keys by { assert back in t.index; }
  }

  lemma OthersAbsent(t: seq<Group>, i: nat, s: SlotId, group: map<SlotId, int>)
    requires Ascending(t) && Grouped(t, group) && i < |t| && s in t[i].slts
    ensures forall j :: 0 <= j < |t| && j != i ==> s !in t[j].slts
  {
    Separate(t, group, i);
    assert s in Elems(t[i].slts);
    forall j | 0 <= j < |t| && j != i ensures s !in t[j].slts {
      assert s !in Elems(t[j].slts);
    }
  }

  lemma IndexUnchanged(slts: seq<SlotId>, index: map<SlotId, nat>, s: SlotId, k: nat)
    requires IndexedIn(slts, index) && s !in slts
    ensures IndexedIn(slts, index[s := k])
  {
  }

  // ----- removing many slots

  /** `disconnect_if` on one group from position k on. */
  function SweepGroup(t: Table, i: nat, k: nat, matching: set<SlotId>): (r: (Table, nat))
    requires i < |t.groups|
    ensures |r.0.groups| == |t.groups|
    decreases |t.groups[i].slts| - k
  {
    var slts := t.groups[i].slts;
    if k >= |slts| then (t, 0)
    else if slts[k] in matching then
      var u := Table(t.groups[i := Group(t.groups[i].gid, SwapPop(slts, k))], t.index[slts[|slts| - 1] := k]);
      var (r, n) := SweepGroup(u, i, k, matching);
      (r, n + 1)
    else SweepGroup(t, i, k + 1, matching)
  }

  /** `disconnect_if` from group i on. */
  function SweepFrom(t: Table, i: nat, matching: set<SlotId>): (Table, nat)
    requires i <= |t.groups|
    decreases |t.groups| - i
  {
    if i == |t.groups| then (t, 0)
    else
      var (u, n) := SweepGroup(t, i, 0, matching);
      var (r, m) := SweepFrom(u, i + 1, matching);
      (r, n + m)
  }

  function DisconnectIf(t: Table, matching: set<SlotId>): (Table, nat) {
    SweepFrom(t, 0, matching)
  }

  /** What sweeping one group from t to r, removing n slots, means. */
  ghost predicate Swept(t: Table, i: nat, matching: set<SlotId>, group: map<SlotId, int>, r: Table, n: nat) {
    && i < |t.groups| == |r.groups|
    && WellFormed(r, group) && r.index.Keys == t.index.Keys
    && (forall j :: 0 <= j < |t.groups| && j != i ==> r.groups[j] == t.groups[j])
    && Slots(r.groups) == Slots(t.groups) - (Elems(t.groups[i].slts) * matching)
    && Elems(r.groups[i].slts) == Elems(t.groups[i].slts) - matching
    && n == |Elems(t.groups[i].slts) * matching|
  }

  lemma {:induction false} SweepGroupEffect(t: Table, i: nat, k: nat, matching: set<SlotId>, group: map<SlotId, int>)
    requires WellFormed(t, group) && i < |t.groups| && k <= |t.groups[i].slts|
    requires forall j :: 0 <= j < k ==> t.groups[i].slts[j] !in matching
    ensures Swept(t, i, matching, group, SweepGroup(t, i, k, matching).0, SweepGroup(t, i, k, matching).1)
    decreases |t.groups[i].slts| - k
  {
    hide Slots, SwapPop, WellFormed, Swept;
    var slts := t.groups[i].slts;
    if k == |slts| {
      SweptNothing(t, i, matching, group);
    } else if slts[k] in matching {
      RemoveAt(t, i, k, group);
      SwapPopFacts(t, i, k, group);
      var u := Table(t.groups[i := Group(t.groups[i].gid, SwapPop(slts, k))], t.index[slts[|slts| - 1] := k]);
      SweepGroupEffect(u, i, k, matching, group);
      var (r, n) := SweepGroup(u, i, k, matching);
      SweptOne(t, i, k, matching, group, u, r, n);
    } else {
      SweepGroupEffect(t, i, k + 1, matching, group);
    }
  }

  lemma SweptNothing(t: Table, i: nat, matching: set<SlotId>, group: map<SlotId, int>)
    requires WellFormed(t, group) && i < |t.groups|
    requires forall j :: 0 <= j < |t.groups[i].slts| ==> t.groups[i].slts[j] !in matching
    ensures Swept(t, i, matching, group, t, 0)
  {
    hide Slots, WellFormed;
    assert Elems(t.groups[i].slts) * matching == {};
  }

  lemma SweptOne(t: Table, i: nat, k: nat, matching: set<SlotId>, group: map<SlotId, int>, u: Table, r: Table, n: nat)
    requires i < |t.groups| == |u.groups| && k < |t.groups[i].slts| && t.groups[i].slts[k] in matching
    requires u.index.Keys == t.index.Keys
    requires forall j :: 0 <= j < |t.groups| && j != i ==> u.groups[j] == t.groups[j]
    requires Slots(u.groups) == Slots(t.groups) - {t.groups[i].slts[k]}
    requires Elems(u.groups[i].slts) == Elems(t.groups[i].slts) - {t.groups[i].slts[k]}
    requires Swept(u, i, matching, group, r, n)
    ensures Swept(t, i, matching, group, r, n + 1)
  {
    hide Slots, WellFormed;
    var s, all := t.groups[i].slts[k], Elems(t.groups[i].slts);
    assert s in all;
    OneMore(all, matching, s);
  }

  lemma OneMore<T>(all: set<T>, matching: set<T>, s: T)
    requires s in all && s in matching
    ensures all * matching == (all - {s}) * matching + {s}
    ensures |all * matching| == |(all - {s}) * matching| + 1
    ensures all - {s} - matching == all - matching
  {
    assert all * matching == (all - {s}) * matching + {s};
  }

  lemma SwapPopFacts(t: Table, i: nat, k: nat, group: map<SlotId, int>)
    requires WellFormed(t, group) && i < |t.groups| && k < |t.groups[i].slts|
    ensures var slts := t.groups[i].slts;
            Elems(SwapPop(slts, k)) == Elems(slts) - {slts[k]}
            && (forall j :: 0 <= j < k ==> SwapPop(slts, k)[j] == slts[j])
  {
    SwapPopEffect(t.groups[i].slts, k, t.index);
  }

  lemma {:induction false} SweepFromEffect(t: Table, i: nat, matching: set<SlotId>, group: map<SlotId, int>)
    requires WellFormed(t, group) && i <= |t.groups|
    requires forall j :: 0 <= j < i ==> Elems(t.groups[j].slts) !! matching
    ensures var (r, n) := SweepFrom(t, i, matching);
            WellFormed(r, group) && r.index.Keys == t.index.Keys
            && Slots(r.groups) == Slots(t.groups) - matching
            && n == |Slots(t.groups) * matching|
    decreases |t.groups| - i
  {
    hide WellFormed, SweepGroup, Slots, Elems;
    if i == |t.groups| {
      NoneMatch(t.groups, matching);
    } else {
      SweepGroupEffect(t, i, 0, matching, group);
      var (u, n) := SweepGroup(t, i, 0, matching);
      SweepFromEffect(u, i + 1, matching, group);
      InSlots(t.groups, i);
      CardSplit(Slots(t.groups), Elems(t.groups[i].slts), matching);
    }
  }

  lemma NoneMatch(t: seq<Group>, matching: set<SlotId>)
    requires forall j :: 0 <= j < |t| ==> Elems(t[j].slts) !! matching
    ensures Slots(t) * matching == {} && Slots(t) - matching == Slots(t)
  {
    forall s | s in Slots(t) ensures s !in matching {
      var j :| 0 <= j < |t| && s in t[j].slts;
      assert s in Elems(t[j].slts);
    }
  }

  lemma CardSplit<T>(all: set<T>, part: set<T>, matching: set<T>)
    requires part <= all
    ensures |all * matching| == |part * matching| + |(all - part * matching) * matching|
    ensures all - part * matching - matching == all - matching
  {
    assert all * matching == part * matching + (all - part * matching) * matching;
  }

  /** disconnect_if removes exactly the matching slots and returns their number. */
  lemma DisconnectIfEffect(t: Table, matching: set<SlotId>, group: map<SlotId, int>)
    requires WellFormed(t, group)
    ensures var (r, n) := DisconnectIf(t, matching);
            WellFormed(r, group) && r.index.Keys == t.index.Keys
            && Slots(r.groups) == Slots(t.groups) - matching
            && n == |Slots(t.groups) * matching|
  {
    hide WellFormed, Slots, SweepFrom;
    SweepFromEffect(t, 0, matching, group);
  }

  /** `disconnect(gid)`: empties the group, which stays in the list. */
  function DisconnectGroup(t: Table, gid: int): (Table, nat) {
    var i := GroupIndex(t.groups, gid);
    if i < |t.groups| then (t.(groups := t.groups[i := Group(gid, [])]), |t.groups[i].slts|) else (t, 0)
  }

  lemma DisconnectGroupEffect(t: Table, gid: int, group: map<SlotId, int>)
    requires WellFormed(t, group)
    ensures var (r, n) := DisconnectGroup(t, gid);
            WellFormed(r, group) && r.index == t.index
            && Slots(r.groups) == Slots(t.groups) - InGroup(t.groups, gid, group)
            && n == |InGroup(t.groups, gid, group)|
  {
    hide GroupIndex, Slots, InGroup, Distinct;
    var i := GroupIndex(t.groups, gid);
    GroupMembers(t.groups, gid, group);
    if i < |t.groups| {
      var slts := t.groups[i].slts;
      Separate(t.groups, group, i);
      SlotsUpdate(t.groups, i, []);
      assert t.groups[i].(slts := []) == Group(gid, []);
      assert Elems<SlotId>([]) == {};
      WellFormedIsShaped(t, group);
      DistinctCard(slts);
      EmptiedWellFormed(t, i, group);
    }
  }

  lemma EmptiedWellFormed(t: Table, i: nat, group: map<SlotId, int>)
    requires WellFormed(t, group) && i < |t.groups|
    ensures WellFormed(t.(groups := t.groups[i := Group(t.groups[i].gid, [])]), group)
  {
  }

  /** The listed slots created for group gid. */
  ghost function InGroup(t: seq<Group>, gid: int, group: map<SlotId, int>): set<SlotId> {
    set s | s in Slots(t) && s in group && group[s] == gid
  }

  lemma GroupMembers(t: seq<Group>, gid: int, group: map<SlotId, int>)
    requires Ascending(t) && Grouped(t, group)
    ensures var i := GroupIndex(t, gid);
            InGroup(t, gid, group) == if i < |t| then Elems(t[i].slts) else {}
  {
    hide GroupIndex;
    var i := GroupIndex(t, gid);
    forall s | s in InGroup(t, gid, group) ensures i < |t| && s in Elems(t[i].slts) {
      var j :| 0 <= j < |t| && s in t[j].slts;
      assert t[j].gid == gid;
      SameGroup(t, i, j);
    }
  }

  /** `clear`. */
  function Clear(t: Table): Table { t.(groups := []) }

  lemma ClearEffect(t: Table, group: map<SlotId, int>)
    ensures WellFormed(Clear(t), group) && Slots(Clear(t).groups) == {}
  {
  }
}
