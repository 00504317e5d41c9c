/** Implicitly shared pointers: reference-counted cells with copy on write behave as deep copies. */
module SharedData {
  import opened Wrappers

  type Handle = nat
  type CellId = nat

  /** A SharedData object: its reference count and its contents. */
  datatype Cell<T> = Cell(count: nat, value: T)

  /** The operations of SharedDataPointer<T, false>; Write is a mutable access right after its detach. */
  datatype Op<T> =
    | NewNull(h: Handle)
    | New(h: Handle, v: T)
    | Copy(h: Handle, src: Handle)
    | Assign(h: Handle, src: Handle)
    | AssignNew(h: Handle, v: T)
    | AssignNull(h: Handle)
    | MoveNew(h: Handle, src: Handle)
    | MoveAssign(h: Handle, src: Handle)
    | Swap(h: Handle, src: Handle)
    | Destroy(h: Handle)
    | Write(h: Handle, v: T)

  type Values<T> = map<Handle, Option<T>>

  /** Constructors need a handle that does not exist; everything else needs handles that do. */
  predicate Legal<T>(vals: Values<T>, op: Op<T>) {
    match op
    case NewNull(h) => h !in vals
    case New(h, _) => h !in vals
    case Copy(h, src) => h !in vals && src in vals
    case MoveNew(h, src) => h !in vals && src in vals
    case Assign(h, src) => h in vals && src in vals
    case MoveAssign(h, src) => h in vals && src in vals
    case Swap(h, src) => h in vals && src in vals
    case AssignNew(h, _) => h in vals
    case AssignNull(h) => h in vals
    case Destroy(h) => h in vals
    case Write(h, _) => h in vals && vals[h].Some?
  }

  /** What the operation does when every handle owns a value of its own. */
  function DeepCopied<T>(vals: Values<T>, op: Op<T>): Values<T>
    requires Legal(vals, op)
  {
    match op
    case NewNull(h) => vals[h := None]
    case New(h, v) => vals[h := Some(v)]
    case Copy(h, src) => vals[h := vals[src]]
    case Assign(h, src) => vals[h := vals[src]]
    case AssignNew(h, v) => vals[h := Some(v)]
    case AssignNull(h) => vals[h := None]
    case MoveNew(h, src) => vals[src := None][h := vals[src]]
    case MoveAssign(h, src) => vals[src := None][h := vals[src]]
    case Swap(h, src) => vals[h := vals[src]][src := vals[h]]
    case Destroy(h) => vals - {h}
    case Write(h, v) => vals[h := Some(v)]
  }

  /** A whole run on values; an operation that is not legal where it stands is skipped. */
  function DeepCopiedRun<T>(vals: Values<T>, ops: seq<Op<T>>): Values<T> {
    if ops == [] then vals
    else Performed(DeepCopiedRun(vals, ops[..|ops| - 1]), ops[|ops| - 1])
  }

  /** The operation, if it is legal. */
  function Performed<T>(vals: Values<T>, op: Op<T>): Values<T> {
    if Legal(vals, op) then DeepCopied(vals, op) else vals
  }

  // ----- counting owners

  ghost function Owners(handles: map<Handle, Option<CellId>>, c: CellId): set<Handle> {
    set h | h in handles && handles[h] == Some(c)
  }

  lemma OwnersPut(handles: map<Handle, Option<CellId>>, h: Handle, o: Option<CellId>, c: CellId)
    ensures |Owners(handles[h := o], c)| + One(h in handles && handles[h] == Some(c))
         == |Owners(handles, c)| + One(o == Some(c))
  {
    hide Owners;
    WithOrWithout(Owners(handles, c), h);
    WithOrWithout(Owners(handles[h := o], c), h);
    OtherOwners(handles, h, o, c);
  }

  lemma OtherOwners(handles: map<Handle, Option<CellId>>, h: Handle, o: Option<CellId>, c: CellId)
    ensures Owners(handles[h := o], c) - {h} == Owners(handles, c) - {h}
    ensures h in Owners(handles, c) <==> h in handles && handles[h] == Some(c)
    ensures h in Owners(handles[h := o], c) <==> o == Some(c)
  {
  }

  lemma OwnersDrop(handles: map<Handle, Option<CellId>>, h: Handle, c: CellId)
    requires h in handles
    ensures |Owners(handles - {h}, c)| + One(handles[h] == Some(c)) == |Owners(handles, c)|
  {
    WithOrWithout(Owners(handles, c), h);
    assert Owners(handles - {h}, c) == Owners(handles, c) - {h};
  }

  // ----- the invariant

  /** Every count is the number of owners, plus one for a reference r that is taken and not yet stored; a
  cell exists exactly as long as its count is positive; every handle refers to an existing cell. */
  ghost predicate Balanced<T>(cells: map<CellId, Cell<T>>, handles: map<Handle, Option<CellId>>, next: nat,
      r: Option<CellId>)
  {
    && (forall c :: c in cells ==> c < next && cells[c].count > 0)
    && (forall c :: c in cells ==> cells[c].count == |Owners(handles, c)| + One(r == Some(c)))
    && Linked(cells, handles)
    && (r.Some? ==> r.value in cells)
  }

  ghost predicate Linked<T>(cells: map<CellId, Cell<T>>, handles: map<Handle, Option<CellId>>) {
    forall h :: h in handles && handles[h].Some? ==> handles[h].value in cells
  }

  /** The value each handle shows. */
  ghost function Shown<T>(cells: map<CellId, Cell<T>>, handles: map<Handle, Option<CellId>>): (r: Values<T>)
    requires Linked(cells, handles)
    ensures r.Keys == handles.Keys
  {
    map h | h in handles :: if handles[h].Some? then Some(cells[handles[h].value].value) else None
  }

  lemma RepointBalanced<T>(cells: map<CellId, Cell<T>>, handles: map<Handle, Option<CellId>>, next: nat, h: Handle,
      o: Option<CellId>)
    requires Balanced(cells, handles, next, o)
    ensures Balanced(cells, handles[h := o], next, if h in handles then handles[h] else None)
    ensures Shown(cells, handles[h := o])
         == Shown(cells, handles)[h := if o.Some? then Some(cells[o.value].value) else None]
  {
    hide Owners;
    forall c | c in cells
      ensures cells[c].count ==
                |Owners(handles[h := o], c)| + One((if h in handles then handles[h] else None) == Some(c))
    {
      OwnersPut(handles, h, o, c);
    }
  }

  lemma DropBalanced<T>(cells: map<CellId, Cell<T>>, handles: map<Handle, Option<CellId>>, next: nat, h: Handle)
    requires Balanced(cells, handles, next, None) && h in handles
    ensures Balanced(cells, handles - {h}, next, handles[h])
    ensures Shown(cells, handles - {h}) == Shown(cells, handles) - {h}
  {
    hide Owners;
    forall c | c in cells ensures cells[c].count == |Owners(handles - {h}, c)| + One(handles[h] == Some(c)) {
      OwnersDrop(handles, h, c);
    }
  }

  /** A cell without owners shows through no handle. */
  lemma Unowned<T>(cells: map<CellId, Cell<T>>, handles: map<Handle, Option<CellId>>, next: nat, c: CellId, h: Handle)
    requires Balanced(cells, handles, next, Some(c)) && cells[c].count == 1 && h in handles
    ensures handles[h] != Some(c)
  {
    assert |Owners(handles, c)| == 0;
    assert h in Owners(handles, c) <==> handles[h] == Some(c);
  }

  lemma NewCellUnowned(cells: map<CellId, Cell>, handles: map<Handle, Option<CellId>>, c: CellId)
    requires c !in cells && forall h :: h in handles && handles[h].Some? ==> handles[h].value in cells
    ensures |Owners(handles, c)| == 0
  {
    assert Owners(handles, c) == {};
  }

  lemma RefBalanced<T>(cells: map<CellId, Cell<T>>, handles: map<Handle, Option<CellId>>, next: nat, c: CellId)
    requires Balanced(cells, handles, next, None) && c in cells
    ensures Balanced(cells[c := cells[c].(count := cells[c].count + 1)], handles, next, Some(c))
    ensures Shown(cells[c := cells[c].(count := cells[c].count + 1)], handles) == Shown(cells, handles)
  {
    hide Owners;
  }

  /** deref() by the owner of the reference in flight: the cell goes exactly when nobody is left. */
  lemma DerefBalanced<T>(cells: map<CellId, Cell<T>>, handles: map<Handle, Option<CellId>>, next: nat, c: CellId)
    requires Balanced(cells, handles, next, Some(c))
    ensures var rest := if cells[c].count == 1 then cells - {c} else cells[c := cells[c].(count := cells[c].count - 1)];
            Balanced(rest, handles, next, None) && Shown(rest, handles) == Shown(cells, handles)
  {
    if cells[c].count == 1 {
      forall h | h in handles ensures handles[h] != Some(c) { Unowned(cells, handles, next, c, h); }
    }
    hide Owners;
  }

  lemma NewBalanced<T>(cells: map<CellId, Cell<T>>, handles: map<Handle, Option<CellId>>, next: nat, v: T)
    requires Balanced(cells, handles, next, None)
    ensures Balanced(cells[next := Cell(1, v)], handles, next + 1, Some(next))
    ensures Shown(cells[next := Cell(1, v)], handles) == Shown(cells, handles)
  {
    NewCellUnowned(cells, handles, next);
    hide Owners;
  }

  /** The clone of detachHelper: one handle moves from a cell with other owners to a copy of its own. */
  lemma DetachBalanced<T>(cells: map<CellId, Cell<T>>, handles: map<Handle, Option<CellId>>, next: nat, h: Handle)
    requires Balanced(cells, handles, next, None) && h in handles && handles[h].Some?
    requires cells[handles[h].value].count > 1
    ensures var c := handles[h].value;
            var after := cells[next := Cell(1, cells[c].value)][c := cells[c].(count := cells[c].count - 1)];
            && Balanced(after, handles[h := Some(next)], next + 1, None)
            && Shown(after, handles[h := Some(next)]) == Shown(cells, handles)
            && |Owners(handles[h := Some(next)], next)| == 1
  {
    hide Owners;
    var c := handles[h].value;
    var v := cells[c].value;
    NewBalanced(cells, handles, next, v);
    RepointBalanced(cells[next := Cell(1, v)], handles, next + 1, h, Some(next));
    DerefBalanced(cells[next := Cell(1, v)], handles[h := Some(next)], next + 1, c);
  }

  /** The only owner of a cell may write it: no other handle shows the change. */
  lemma WriteBalanced<T>(cells: map<CellId, Cell<T>>, handles: map<Handle, Option<CellId>>, next: nat, h: Handle, v: T)
    requires Balanced(cells, handles, next, None) && h in handles && handles[h].Some?
    requires cells[handles[h].value].count == 1
    ensures var c := handles[h].value;
            && Balanced(cells[c := Cell(1, v)], handles, next, None)
            && Shown(cells[c := Cell(1, v)], handles) == Shown(cells, handles)[h := Some(v)]
  {
    var c := handles[h].value;
    forall g | g in handles && g != h ensures handles[g] != Some(c) { SoleOwner(handles, c, h, g); }
    hide Owners;
  }

  lemma SoleOwner(handles: map<Handle, Option<CellId>>, c: CellId, h: Handle, g: Handle)
    requires h in handles && g in handles && g != h && handles[h] == Some(c) && |Owners(handles, c)| == 1
    ensures handles[g] != Some(c)
  {
    WithOrWithout(Owners(handles, c), h);
    assert g in Owners(handles, c) - {h} <==> handles[g] == Some(c);
  }

  // ----- the pointers

  /** All pointers of one element type, and the cells they share. */
  class Pointers<T> {
    var cells: map<CellId, Cell<T>>
    var handles: map<Handle, Option<CellId>>
    var next: nat

    /** The count of every cell is the number of pointers that own it; a cell without owner is gone. */
    ghost predicate Valid()
      reads this
    {
      Linked(cells, handles) && Balanced(cells, handles, next, None)
    }

    /** What each pointer shows. */
    ghost function Contents(): (r: Values<T>)
      reads this
      requires Linked(cells, handles)
      ensures r.Keys == handles.Keys
    {
      Shown(cells, handles)
    }

    constructor ()
      ensures Valid() && Contents() == map[]
    {
      cells, handles, next := map[], map[], 0;
    }

    method Ref(c: CellId)
      requires Balanced(cells, handles, next, None) && c in cells
      modifies this`cells
      ensures Balanced(cells, handles, next, Some(c)) && Contents() == old(Contents())
      ensures cells == old(cells)[c := old(cells)[c].(count := old(cells)[c].count + 1)]
    {
      RefBalanced(cells, handles, next, c);
      cells := cells[c := cells[c].(count := cells[c].count + 1)];
    }

    /** Drops a reference, and deletes the cell if that was the last. */
    method Deref(c: CellId)
      requires Balanced(cells, handles, next, Some(c))
      modifies this`cells
      ensures Balanced(cells, handles, next, None) && Contents() == old(Contents())
      ensures c !in cells <==> old(cells)[c].count == 1
    {
      DerefBalanced(cells, handles, next, c);
      var count := cells[c].count - 1;
      cells := cells[c := cells[c].(count := count)];
      if count == 0 { cells := cells - {c}; }
    }

    /** new T followed by ref(). */
    method Allocate(v: T) returns (c: CellId)
      requires Valid()
      modifies this`cells, this`next
      ensures Balanced(cells, handles, next, Some(c)) && c !in old(cells) && cells[c].value == v
      ensures Contents() == old(Contents())
    {
      NewBalanced(cells, handles, next, v);
      c := next;
      next := next + 1;
      cells := cells[c := Cell(0, v)];
      cells := cells[c := Cell(1, v)];
    }

    /** Stores the reference in flight in h; what h held before is then in flight. */
    method Store(h: Handle, o: Option<CellId>)
      requires Balanced(cells, handles, next, o)
      modifies this`handles
      ensures handles == old(handles)[h := o]
      ensures Balanced(cells, handles, next, if h in old(handles) then old(handles)[h] else None)
      ensures Contents() == old(Contents())[h := if o.Some? then Some(cells[o.value].value) else None]
    {
      RepointBalanced(cells, handles, next, h, o);
      handles := handles[h := o];
    }

    method Construct(h: Handle, v: Option<T>)
      requires Valid() && h !in handles
      modifies this
      ensures Valid() && Contents() == old(Contents())[h := v]
    {
      if v.Some? {
        var c := Allocate(v.value);
        Store(h, Some(c));
      } else {
        Store(h, None);
      }
    }

    /** What a raw pointer shows: nothing if it is null. */
    ghost function ValueAt(o: Option<CellId>): Option<T>
      reads this
      requires o.Some? ==> o.value in cells
    {
      if o.Some? then Some(cells[o.value].value) else None
    }

    /** The body of both assignment operators, for null and for any object that already has an owner. */
    method AssignPointer(h: Handle, other: Option<CellId>)
      requires Valid() && h in handles && (other.Some? ==> other.value in cells)
      modifies this
      ensures Valid() && Contents() == old(Contents())[h := old(ValueAt(other))]
    {
      var mine := handles[h];
      if other != mine {
        if other.Some? { Ref(other.value); }
        Store(h, other);
        if mine.Some? { Deref(mine.value); }
      }
    }

    method AssignFrom(h: Handle, src: Handle)
      requires Valid() && h in handles && src in handles
      modifies this
      ensures Valid() && Contents() == old(Contents())[h := old(Contents())[src]]
    {
      AssignPointer(h, handles[src]);
    }

    /** Assignment of an object that has no owner yet. */
    method AssignFresh(h: Handle, v: T)
      requires Valid() && h in handles
      modifies this
      ensures Valid() && Contents() == old(Contents())[h := Some(v)]
    {
      var mine := handles[h];
      var c := Allocate(v);
      Store(h, Some(c));
      if mine.Some? { Deref(mine.value); }
    }

    /** The body of the copy constructor and of the constructor from a raw pointer to an owned object. */
    method ConstructFrom(h: Handle, other: Option<CellId>)
      requires Valid() && h !in handles && (other.Some? ==> other.value in cells)
      modifies this
      ensures Valid() && Contents() == old(Contents())[h := old(ValueAt(other))]
    {
      if other.Some? { Ref(other.value); }
      Store(h, other);
    }

    method CopyConstruct(h: Handle, src: Handle)
      requires Valid() && h !in handles && src in handles
      modifies this
      ensures Valid() && Contents() == old(Contents())[h := old(Contents())[src]]
    {
      ConstructFrom(h, handles[src]);
    }

    method Remove(h: Handle)
      requires Valid() && h in handles
      modifies this
      ensures Valid() && Contents() == old(Contents()) - {h}
    {
      var mine := handles[h];
      DropBalanced(cells, handles, next, h);
      handles := handles - {h};
      if mine.Some? { Deref(mine.value); }
    }

    method MoveConstruct(h: Handle, src: Handle)
      requires Valid() && h !in handles && src in handles
      modifies this
      ensures Valid() && Contents() == old(Contents())[src := None][h := old(Contents())[src]]
    {
      var other := handles[src];
      Store(src, None);
      Store(h, other);
    }

    method SwapWith(h: Handle, src: Handle)
      requires Valid() && h in handles && src in handles
      modifies this
      ensures Valid() && Contents() == old(Contents())[h := old(Contents())[src]][src := old(Contents())[h]]
    {
      var a, b := handles[h], handles[src];
      SwapBalanced(cells, handles, next, h, src);
      handles := handles[h := b][src := a];
    }

    /** Moves into a temporary, swaps with it, and destroys it. */
    method MoveAssignFrom(h: Handle, src: Handle, moved: Handle)
      requires Valid() && h in handles && src in handles && moved !in handles
      modifies this
      ensures Valid() && Contents() == old(Contents())[src := None][h := old(Contents())[src]]
    {
      hide Balanced, Linked, Shown;
      ghost var before := Contents();
      MoveConstruct(moved, src);
      assert h in Contents() && moved in Contents();
      SwapWith(h, moved);
      assert moved in Contents();
      Remove(moved);
      MovedMaps(before, h, src, moved);
    }

    /** detach() and detachHelper(): afterwards the pointer owns its cell alone. */
    method Detach(h: Handle)
      requires Valid() && h in handles
      modifies this
      ensures Valid() && Contents() == old(Contents())
      ensures handles.Keys == old(handles).Keys && handles[h].Some? == old(handles[h].Some?)
      ensures handles[h].Some? ==> handles[h].value in cells && cells[handles[h].value].count == 1
    {
      if handles[h].Some? && cells[handles[h].value].count != 1 {
        DetachHelper(h);
      }
    }

    /** The copy starts with a count of zero, which ref() raises; the old cell loses one owner. */
    method DetachHelper(h: Handle)
      requires Valid() && h in handles && handles[h].Some? && cells[handles[h].value].count > 1
      modifies this
      ensures Valid() && Contents() == old(Contents()) && handles == old(handles[h := Some(next)])
      ensures old(next) in cells && cells[old(next)].count == 1
    {
      DetachBalanced(cells, handles, next, h);
      DetachSteps(cells, handles, next, h);
      hide Balanced, Linked, Shown;
      var c, data := handles[h].value, next;
      var v, count := cells[c].value, cells[c].count - 1;
      next := next + 1;
      cells := cells[data := Cell(0, v)];
      cells := cells[data := Cell(1, v)];
      cells := cells[c := Cell(count, v)];
      assert count != 0;  // the count was not one, so the old cell still has an owner and is not deleted
      handles := handles[h := Some(data)];
    }

    method WriteThrough(h: Handle, v: T)
      requires Valid() && h in handles && handles[h].Some?
      modifies this
      ensures Valid() && Contents() == old(Contents())[h := Some(v)]
    {
      Detach(h);
      WriteBalanced(cells, handles, next, h, v);
      var c := handles[h].value;
      cells := cells[c := cells[c].(value := v)];
    }
  }

  lemma DetachSteps<T>(cells: map<CellId, Cell<T>>, handles: map<Handle, Option<CellId>>, next: nat, h: Handle)
    requires Balanced(cells, handles, next, None) && h in handles && handles[h].Some?
    ensures var c := handles[h].value;
            && c in cells && c != next && cells[c].count > 0
            && cells[next := Cell(0, cells[c].value)][next := Cell(1, cells[c].value)]
                    [c := Cell(cells[c].count - 1, cells[c].value)]
               == cells[next := Cell(1, cells[c].value)][c := cells[c].(count := cells[c].count - 1)]
  {
    hide Owners;
  }

  lemma MovedMaps<T>(v: Values<T>, h: Handle, src: Handle, moved: Handle)
    requires h in v && src in v && moved !in v
    ensures var taken := v[src := None][moved := v[src]];
            taken[h := taken[moved]][moved := taken[h]] - {moved} == v[src := None][h := v[src]]
  {
  }

  lemma SwapBalanced<T>(cells: map<CellId, Cell<T>>, handles: map<Handle, Option<CellId>>, next: nat, h: Handle,
      g: Handle)
    requires Balanced(cells, handles, next, None) && h in handles && g in handles
    ensures var swapped := handles[h := handles[g]][g := handles[h]];
            && Balanced(cells, swapped, next, None)
            && Shown(cells, swapped)
               == Shown(cells, handles)[h := Shown(cells, handles)[g]][g := Shown(cells, handles)[h]]
  {
    hide Owners;
    var first := handles[h := handles[g]];
    forall c | c in cells ensures |Owners(first[g := handles[h]], c)| == |Owners(handles, c)| {
      OwnersPut(handles, h, handles[g], c);
      OwnersPut(first, g, handles[h], c);
    }
  }

  /** Any run of pointer operations shows what the same run on deep copies shows; at every point the count of
  a cell is the number of pointers that own it, and a cell without an owner is gone. */
  method Execute<T>(p: Pointers<T>, ops: seq<Op<T>>)
    requires p.Valid()
    modifies p
    ensures p.Valid() && p.Contents() == DeepCopiedRun(old(p.Contents()), ops)
  {
    hide Balanced, Linked, Shown;
    for i := 0 to |ops|
      invariant p.Valid() && p.Contents() == DeepCopiedRun(old(p.Contents()), ops[..i])
    {
      assert ops[..i + 1][..i] == ops[..i];
      Perform(p, ops[i]);
    }
    assert ops[..|ops|] == ops;
  }

  method Perform<T>(p: Pointers<T>, op: Op<T>)
    requires p.Valid()
    modifies p
    ensures p.Valid()
    ensures p.Contents() == Performed(old(p.Contents()), op)
  {
    hide Balanced, Linked, Shown;
    if op.NewNull? || op.New? || op.Copy? || op.MoveNew? {
      Construct(p, op);
    } else {
      Change(p, op);
    }
  }

  /** The constructors. */
  method Construct<T>(p: Pointers<T>, op: Op<T>)
    requires p.Valid() && (op.NewNull? || op.New? || op.Copy? || op.MoveNew?)
    modifies p
    ensures p.Valid()
    ensures p.Contents() == Performed(old(p.Contents()), op)
  {
    hide Balanced, Linked, Shown;
    ghost var vals := p.Contents();
    assert forall h :: h in p.handles <==> h in vals.Keys;
    match op
    case NewNull(h) => if h !in p.handles { p.Construct(h, None); }
    case New(h, v) => if h !in p.handles { p.Construct(h, Some(v)); }
    case Copy(h, src) => if h !in p.handles && src in p.handles { p.CopyConstruct(h, src); }
    case MoveNew(h, src) => if h !in p.handles && src in p.handles { p.MoveConstruct(h, src); }
  }

  /** The operations on pointers that exist. */
  method Change<T>(p: Pointers<T>, op: Op<T>)
    requires p.Valid() && !op.NewNull? && !op.New? && !op.Copy? && !op.MoveNew?
    modifies p
    ensures p.Valid()
    ensures p.Contents() == Performed(old(p.Contents()), op)
  {
    ShownKinds(p.cells, p.handles, p.next);
    hide Balanced, Linked, Shown;
    ghost var vals := p.Contents();
    assert forall h :: h in p.handles <==> h in vals.Keys;
    match op
    case Assign(h, src) => if h in p.handles && src in p.handles { p.AssignFrom(h, src); }
    case MoveAssign(h, src) =>
      if h in p.handles && src in p.handles {
        var moved := Unused(p.handles);
        p.MoveAssignFrom(h, src, moved);
      }
    case Swap(h, src) => if h in p.handles && src in p.handles { p.SwapWith(h, src); }
    case AssignNew(h, v) => if h in p.handles { p.AssignFresh(h, v); }
    case AssignNull(h) => if h in p.handles { p.AssignPointer(h, None); }
    case Destroy(h) => if h in p.handles { p.Remove(h); }
    case Write(h, v) => if h in p.handles && p.handles[h].Some? { p.WriteThrough(h, v); }
  }

  lemma ShownKinds<T>(cells: map<CellId, Cell<T>>, handles: map<Handle, Option<CellId>>, next: nat)
    requires Balanced(cells, handles, next, None)
    ensures forall h :: h in handles ==> Shown(cells, handles)[h].Some? == handles[h].Some?
  {
  }

  /** A name for a temporary. */
  method Unused(handles: map<Handle, Option<CellId>>) returns (h: Handle)
    ensures h !in handles
  {
    h := 0;
    ghost var seen: set<Handle> := {};
    while h in handles
      invariant seen <= handles.Keys && |seen| == h && forall g :: g in seen ==> g < h
      decreases |handles.Keys| - h
    {
      Smaller(seen, handles.Keys, h);
      seen := seen + {h};
      h := h + 1;
    }
  }

  lemma Smaller(seen: set<Handle>, all: set<Handle>, h: Handle)
    requires seen <= all && h in all && h !in seen
    ensures |seen| < |all|
  {
    assert all == seen + (all - seen);
    assert h in all - seen;
  }
}
