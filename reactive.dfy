/** The state `defineReactive` and `observe` work on, and what they do to it.

    The JavaScript heap is explicit. An object is a map from key to slot, and
    a slot that `defineReactive` has intercepted names the cell its getter and
    setter close over. Cells live in a table addressed by identity, so two
    slots share a closure exactly when they hold the same `CellId`.

    `ObserveOn`, `WalkOn` and `DefineOn` compute, on values, what `observe`,
    `Observer.walk` and `defineReactive` do to the heap and the cell table;
    the runtime's methods are proved to perform exactly these steps, and the
    lemmas here say what the steps mean in terms of the view the getters
    present. */
module Reactive {
  import opened JsValues
  import opened HeapView
  import opened Ledger

  type CellId = nat

  /** What one call `defineReactive(obj, key, val)` leaves behind: the
      property `(obj, key)` it was made for, the captured `val` that the getter
      returns and the setter reassigns, and the `deps` list of the `Dep` it
      created. */
  datatype Cell = Cell(home: Prop, val: Value, deps: seq<Watcher>)

  type Cells = map<CellId, Cell>

  /** An own property: a plain data property, or one intercepted by a cell. */
  datatype Slot = Plain(value: Value) | Live(cell: CellId)

  /** A heap object: an array (left as it is), or a record whose keys are kept
      in insertion order, which is `Object.keys` order for keys that are not
      array indices. */
  datatype Obj = ArrayObj | RecordObj(keys: seq<string>, slots: map<string, Slot>)

  type Heap = map<ObjId, Obj>

  /** What reading the slot yields: the stored value, or the getter's `val`. */
  function SlotValue(s: Slot, cells: Cells): Value
  {
    match s
    case Plain(v) => v
    case Live(id) => if id in cells then cells[id].val else Undefined
  }

  ghost function ViewOfObj(ob: Obj, cells: Cells): ObjView
  {
    match ob
    case ArrayObj => ArrayView
    case RecordObj(keys, slots) => RecordView(keys, map k | k in slots :: SlotValue(slots[k], cells))
  }

  /** The heap as its getters show it. */
  ghost function ViewOf(h: Heap, cells: Cells): Graph
  {
    map o | o in h :: ViewOfObj(h[o], cells)
  }

  /** `o[k]` as a read with no `Dep.target` set performs it. */
  function Get(h: Heap, cells: Cells, o: ObjId, k: string): (v: Value)
    ensures v == ReadAt(ViewOf(h, cells), o, k)
  {
    if o in h && h[o].RecordObj? && k in h[o].slots then SlotValue(h[o].slots[k], cells) else Undefined
  }

  /** Keys distinct and exactly those with a slot; every intercepted slot
      names a cell that was made for this very property, so no two
      properties share a cell. */
  ghost predicate WfObj(o: ObjId, ob: Obj, cells: Cells)
  {
    ob.RecordObj? ==>
      && (forall i, j | 0 <= i < j < |ob.keys| :: ob.keys[i] != ob.keys[j])
      && (forall k :: k in ob.slots <==> k in ob.keys)
      && (forall k | k in ob.slots && ob.slots[k].Live? ::
            ob.slots[k].cell in cells && cells[ob.slots[k].cell].home == (o, k))
  }

  ghost predicate WfHeap(h: Heap, nextObj: nat, cells: Cells, nextCell: nat)
  {
    && (forall o | o in h :: o < nextObj && WfObj(o, h[o], cells))
    && (forall id | id in cells :: id < nextCell)
  }

  /** Cell `id` is still reachable: the property it was made for names it. */
  ghost predicate Bound(h: Heap, cells: Cells, id: CellId)
  {
    && id in cells
    && var (o, k) := cells[id].home;
       o in h && h[o].RecordObj? && k in h[o].slots && h[o].slots[k] == Live(id)
  }

  /** Every cell of `c0` is in `c1`, unchanged. */
  ghost predicate Extends(c0: Cells, c1: Cells)
  {
    forall id | id in c0 :: id in c1 && c1[id] == c0[id]
  }

  ghost predicate SameShape(a: Obj, b: Obj)
  {
    || (a.ArrayObj? && b.ArrayObj?)
    || (a.RecordObj? && b.RecordObj? && a.keys == b.keys && a.slots.Keys == b.slots.Keys)
  }

  /** A slot naming a cell numbered `n0` or later whose `Dep` has no subscribers. */
  ghost predicate Renewed(s: Slot, cells: Cells, n0: nat)
  {
    s.Live? && s.cell >= n0 && s.cell in cells && cells[s.cell].deps == []
  }

  /** The heap went from `h0` to `h1` by rebinding exactly the properties in
      `props` (when `complete`; otherwise some of them) to cells numbered `n0`
      or later with empty subscriber lists, leaving every other property and
      every object's keys as they were. */
  ghost predicate Reactivated(h0: Heap, n0: nat, h1: Heap, c1: Cells, props: set<Prop>, complete: bool)
  {
    && h1.Keys == h0.Keys
    && (forall o | o in h1 :: SameShape(h0[o], h1[o]))
    && (forall o, k {:trigger h1[o].slots[k]} | o in h1 && h1[o].RecordObj? && k in h1[o].slots ::
          || h1[o].slots[k] == h0[o].slots[k]
          || ((o, k) in props && Renewed(h1[o].slots[k], c1, n0)))
    && (complete ==> forall p | p in props ::
          && p.0 in h1 && h1[p.0].RecordObj? && p.1 in h1[p.0].slots
          && Renewed(h1[p.0].slots[p.1], c1, n0))
  }

  /** `dep.addDep(w)` on the `Dep` of cell `id`: the list grows by `w` at the
      end and nothing else changes. */
  function AddDepTo(cells: Cells, id: CellId, w: Watcher): (r: Cells)
    requires id in cells
    ensures r.Keys == cells.Keys
    ensures r[id].deps == cells[id].deps + [w]
    ensures r[id].home == cells[id].home && r[id].val == cells[id].val
    ensures forall j | j in cells && j != id :: r[j] == cells[j]
  {
    cells[id := cells[id].(deps := cells[id].deps + [w])]
  }

  /** The ledgers after a getter ran for cell `at` (if any) while
      `Dep.target` was `t`. */
  function Registered(cells: Cells, at: Option<CellId>, t: Option<Watcher>): Cells
  {
    if at.Some? && at.value in cells && t.Some? then AddDepTo(cells, at.value, t.value) else cells
  }

  /** The getter grows exactly one ledger by exactly `Dep.target`, and only
      when the register is set: an untracked read registers nothing. */
  lemma RegisteredAppends(cells: Cells, at: Option<CellId>, t: Option<Watcher>, id: CellId)
    requires id in cells
    ensures id in Registered(cells, at, t)
    ensures Registered(cells, at, t)[id].deps ==
              cells[id].deps + (if at == Some(id) && t.Some? then [t.value] else [])
    ensures Registered(cells, at, t)[id].val == cells[id].val
    ensures t.None? ==> Registered(cells, at, t) == cells
  {
  }

  /** The view reads only each cell's `val`; the ledgers do not show in it. */
  lemma SameValsSameView(h: Heap, c0: Cells, c1: Cells)
    requires c0.Keys == c1.Keys
    requires forall id | id in c0 :: c1[id].val == c0[id].val && c1[id].home == c0[id].home
    ensures ViewOf(h, c1) == ViewOf(h, c0)
    ensures forall n, nc | WfHeap(h, n, c0, nc) :: WfHeap(h, n, c1, nc)
  {
    forall o | o in h ensures ViewOfObj(h[o], c1) == ViewOfObj(h[o], c0) {
      if h[o].RecordObj? {
        assert forall k | k in h[o].slots :: SlotValue(h[o].slots[k], c1) == SlotValue(h[o].slots[k], c0);
      }
    }
  }

  /** The getters show a well-formed heap as well-formed records. */
  lemma ViewWf(h: Heap, nextObj: nat, cells: Cells, nextCell: nat)
    requires WfHeap(h, nextObj, cells, nextCell)
    ensures WfGraph(ViewOf(h, cells))
  {
    forall o | o in h ensures WfView(ViewOf(h, cells)[o]) {
      assert WfObj(o, h[o], cells);
    }
  }

  /** The heap after `Object.defineProperty(o, k, …)` installs the getter and
      setter of cell `id` on the existing key `k` (`walk` only visits keys
      the record has): the key keeps its place and the other slots stay. */
  function Bind(h: Heap, o: ObjId, k: string, id: CellId): (h': Heap)
    ensures h'.Keys == h.Keys
    ensures forall p | p in h && p != o :: h'[p] == h[p]
    ensures o in h && h[o].RecordObj? ==> h'[o].RecordObj? && k in h'[o].slots && h'[o].slots[k] == Live(id)
    ensures o in h && h[o].RecordObj? ==> h'[o].keys == h[o].keys
    ensures o in h && h[o].RecordObj? ==>
              forall j | j in h[o].slots && j != k :: j in h'[o].slots && h'[o].slots[j] == h[o].slots[j]
  {
    if o in h && h[o].RecordObj? then h[o := h[o].(slots := h[o].slots[k := Live(id)])] else h
  }

  /** Installing a new cell keeps the heap well formed. */
  lemma BindWf(h: Heap, nextObj: nat, cells: Cells, nextCell: nat, o: ObjId, k: string, v: Value)
    requires WfHeap(h, nextObj, cells, nextCell)
    requires o in h && h[o].RecordObj? && k in h[o].slots
    ensures WfHeap(Bind(h, o, k, nextCell), nextObj, cells[nextCell := Cell((o, k), v, [])], nextCell + 1)
  {
    var h' := Bind(h, o, k, nextCell);
    var c' := cells[nextCell := Cell((o, k), v, [])];
    forall p | p in h' ensures p < nextObj && WfObj(p, h'[p], c') {
      if p != o {
        assert WfObj(p, h[p], cells);
      }
    }
  }

  /** Away from `o`, installing a cell changes nothing the getters show. */
  lemma BindViewOther(h: Heap, nextObj: nat, cells: Cells, nextCell: nat, o: ObjId, k: string, v: Value, p: ObjId)
    requires WfHeap(h, nextObj, cells, nextCell)
    requires o in h && h[o].RecordObj? && p in h && p != o
    ensures ViewOfObj(Bind(h, o, k, nextCell)[p], cells[nextCell := Cell((o, k), v, [])]) == ViewOfObj(h[p], cells)
  {
    var c' := cells[nextCell := Cell((o, k), v, [])];
    if h[p].RecordObj? {
      assert forall j | j in h[p].slots :: SlotValue(h[p].slots[j], c') == SlotValue(h[p].slots[j], cells);
    }
  }

  /** On `o`, installing a cell holding `v` on `k` shows as `o[k] = v`. */
  lemma BindViewSame(h: Heap, nextObj: nat, cells: Cells, nextCell: nat, o: ObjId, k: string, v: Value)
    requires WfHeap(h, nextObj, cells, nextCell)
    requires o in h && h[o].RecordObj? && k in h[o].slots
    ensures ViewOfObj(Bind(h, o, k, nextCell)[o], cells[nextCell := Cell((o, k), v, [])]) ==
              Put(ViewOfObj(h[o], cells), k, v)
  {
    var c' := cells[nextCell := Cell((o, k), v, [])];
    var h' := Bind(h, o, k, nextCell);
    assert forall j | j in h[o].slots && j != k :: SlotValue(h'[o].slots[j], c') == SlotValue(h[o].slots[j], cells);
  }

  /** Installing a new cell holding `v` on `o[k]` shows, through the getters,
      as a plain assignment `o[k] = v`. */
  lemma BindView(h: Heap, nextObj: nat, cells: Cells, nextCell: nat, o: ObjId, k: string, v: Value)
    requires WfHeap(h, nextObj, cells, nextCell)
    requires o in h && h[o].RecordObj? && k in h[o].slots
    ensures ViewOf(Bind(h, o, k, nextCell), cells[nextCell := Cell((o, k), v, [])]) == WriteAt(ViewOf(h, cells), o, k, v)
  {
    var h' := Bind(h, o, k, nextCell);
    var c' := cells[nextCell := Cell((o, k), v, [])];
    var g := ViewOf(h, cells);
    forall p | p in h ensures ViewOf(h', c')[p] == WriteAt(g, o, k, v)[p] {
      if p != o {
        BindViewOther(h, nextObj, cells, nextCell, o, k, v, p);
      } else {
        BindViewSame(h, nextObj, cells, nextCell, o, k, v);
      }
    }
  }

  /** Installing a new cell is one round of rebinding: of `o[k]` alone. */
  lemma BindReactivated(h: Heap, nextObj: nat, cells: Cells, nextCell: nat, o: ObjId, k: string, v: Value)
    requires WfHeap(h, nextObj, cells, nextCell)
    requires o in h && h[o].RecordObj? && k in h[o].slots
    ensures Extends(cells, cells[nextCell := Cell((o, k), v, [])])
    ensures Reactivated(h, nextCell, Bind(h, o, k, nextCell), cells[nextCell := Cell((o, k), v, [])], {(o, k)}, true)
  {
  }

  /** A record none of whose properties shows cell `id` is unaffected by
      a change to that cell's value. */
  lemma SetValUnseen(h: Heap, nextObj: nat, cells: Cells, nextCell: nat, id: CellId, v: Value, p: ObjId)
    requires WfHeap(h, nextObj, cells, nextCell) && id in cells && p in h
    requires !(Bound(h, cells, id) && p == cells[id].home.0)
    ensures ViewOfObj(h[p], cells[id := cells[id].(val := v)]) == ViewOfObj(h[p], cells)
  {
    var c' := cells[id := cells[id].(val := v)];
    if h[p].RecordObj? {
      assert WfObj(p, h[p], cells);
      assert forall j | j in h[p].slots :: h[p].slots[j] != Live(id);
      assert forall j | j in h[p].slots :: SlotValue(h[p].slots[j], c') == SlotValue(h[p].slots[j], cells);
    }
  }

  /** The property a bound cell belongs to reads the cell's new value. */
  lemma SetValSeen(h: Heap, nextObj: nat, cells: Cells, nextCell: nat, id: CellId, v: Value)
    requires WfHeap(h, nextObj, cells, nextCell) && Bound(h, cells, id)
    ensures var (o, k) := cells[id].home;
            ViewOfObj(h[o], cells[id := cells[id].(val := v)]) == Put(ViewOfObj(h[o], cells), k, v)
  {
    var c' := cells[id := cells[id].(val := v)];
    var (o, k) := cells[id].home;
    assert WfObj(o, h[o], cells);
    assert forall j | j in h[o].slots && j != k :: h[o].slots[j] != Live(id);
    assert forall j | j in h[o].slots && j != k :: SlotValue(h[o].slots[j], c') == SlotValue(h[o].slots[j], cells);
  }

  /** The setter's `val = v`: when the cell is still bound to its property
      the property now reads `v`; a cell that `observe` has since replaced
      takes the value without any property showing it. */
  lemma SetValView(h: Heap, nextObj: nat, cells: Cells, nextCell: nat, id: CellId, v: Value)
    requires WfHeap(h, nextObj, cells, nextCell) && id in cells
    ensures WfHeap(h, nextObj, cells[id := cells[id].(val := v)], nextCell)
    ensures Bound(h, cells[id := cells[id].(val := v)], id) == Bound(h, cells, id)
    ensures ViewOf(h, cells[id := cells[id].(val := v)]) ==
              if Bound(h, cells, id) then WriteAt(ViewOf(h, cells), cells[id].home.0, cells[id].home.1, v)
              else ViewOf(h, cells)
  {
    var c' := cells[id := cells[id].(val := v)];
    var (o, k) := cells[id].home;
    forall p | p in h ensures WfObj(p, h[p], c') {
      assert WfObj(p, h[p], cells);
    }
    var g := ViewOf(h, cells);
    var want := if Bound(h, cells, id) then WriteAt(g, o, k, v) else g;
    forall p | p in h ensures ViewOfObj(h[p], c') == want[p] {
      if Bound(h, cells, id) && p == o {
        SetValSeen(h, nextObj, cells, nextCell, id, v);
      } else {
        SetValUnseen(h, nextObj, cells, nextCell, id, v, p);
      }
    }
  }

  /** Nothing rebound yet. */
  lemma ReactivatedNone(h: Heap, n0: nat, c: Cells)
    ensures Reactivated(h, n0, h, c, {}, true)
  {
  }

  /** Cells only ever accumulate. */
  lemma ExtendsTrans(c0: Cells, c1: Cells, c2: Cells)
    requires Extends(c0, c1) && Extends(c1, c2)
    ensures Extends(c0, c2)
  {
  }

  /** Two rounds of rebinding compose: the second round leaves the first
      round's cells alone, and its own cells are newer still. */
  lemma ReactivatedTrans(h0: Heap, n0: nat, h1: Heap, c1: Cells, n1: nat, h2: Heap, c2: Cells,
                         p: set<Prop>, q: set<Prop>, a: bool, b: bool)
    requires n0 <= n1 && Extends(c1, c2)
    requires Reactivated(h0, n0, h1, c1, p, a) && Reactivated(h1, n1, h2, c2, q, b)
    ensures Reactivated(h0, n0, h2, c2, p + q, a && b)
  {
    forall o, k | o in h2 && h2[o].RecordObj? && k in h2[o].slots
      ensures || h2[o].slots[k] == h0[o].slots[k]
              || ((o, k) in p + q && Renewed(h2[o].slots[k], c2, n0))
    {
      if h2[o].slots[k] == h1[o].slots[k] && h1[o].slots[k] != h0[o].slots[k] {
        assert Renewed(h1[o].slots[k], c1, n0);
      }
    }
    if a && b {
      forall r | r in p + q
        ensures && r.0 in h2 && h2[r.0].RecordObj? && r.1 in h2[r.0].slots
                && Renewed(h2[r.0].slots[r.1], c2, n0)
      {
        if r in p && r.0 in h2 && h2[r.0].slots[r.1] == h1[r.0].slots[r.1] {
          assert Renewed(h1[r.0].slots[r.1], c1, n0);
        }
      }
    }
  }

  /** Rebinding that was allowed to cover `p` but stopped early may as well
      have been allowed to cover more. */
  lemma ReactivatedWeaken(h0: Heap, n0: nat, h1: Heap, c1: Cells, p: set<Prop>, q: set<Prop>)
    requires p <= q && Reactivated(h0, n0, h1, c1, p, false)
    ensures Reactivated(h0, n0, h1, c1, q, false)
  {
  }

  /** Rebinding is about which cells the slots name and whether their
      `Dep`s are empty; the values the cells hold do not enter into it. */
  lemma ReactivatedSameDeps(h0: Heap, n0: nat, h1: Heap, c1: Cells, c2: Cells, props: set<Prop>, complete: bool)
    requires c2.Keys == c1.Keys && forall id | id in c1 :: c2[id].deps == c1[id].deps
    requires Reactivated(h0, n0, h1, c1, props, complete)
    ensures Reactivated(h0, n0, h1, c2, props, complete)
  {
  }

  /** One turn of `walk`: the keys before it rebound `before`, then
      `defineReactive` rebound what observing the field reached (`step`) and,
      when it succeeded, the field itself. */
  lemma WalkStep(h0: Heap, n0: nat, h1: Heap, c1: Cells, n1: nat, h2: Heap, c2: Cells,
                 before: set<Prop>, step: set<Prop>, p: Prop, ok: bool)
    requires n0 <= n1 && Extends(c1, c2)
    requires Reactivated(h0, n0, h1, c1, before, true)
    requires Reactivated(h1, n1, h2, c2, step + (if ok then {p} else {}), ok)
    ensures Reactivated(h0, n0, h2, c2, before + {p} + step, ok)
  {
    ReactivatedTrans(h0, n0, h1, c1, n1, h2, c2, before, step + (if ok then {p} else {}), true, ok);
    if ok {
      assert before + (step + {p}) == before + {p} + step;
    } else {
      ReactivatedWeaken(h0, n0, h2, c2, before + step, before + {p} + step);
    }
  }

  /** The outcome of a conversion: whether it returned normally, and the heap,
      cells and next cell number it left behind (also when it overflowed). */
  datatype Conv = Conv(ok: bool, heap: Heap, cells: Cells, next: nat)

  /** `observe(v)` with `n` nested levels of stack left: non-objects, null
      and arrays are left alone; a record is walked. */
  function ObserveOn(h: Heap, cells: Cells, next: nat, v: Value, n: nat): Conv
    decreases n, 1
  {
    if ObserveSkips(v) || v.id !in h || h[v.id].ArrayObj? then Conv(true, h, cells, next)
    else if n == 0 then Conv(false, h, cells, next)
    else WalkOn(h, cells, next, v.id, h[v.id].keys, n - 1)
  }

  /** `walk(o)` over the keys `ks`, in order: each field is read and handed
      to `defineReactive`; the first overflow ends the walk. */
  function WalkOn(h: Heap, cells: Cells, next: nat, o: ObjId, ks: seq<string>, m: nat): Conv
    decreases m, 3, |ks|
  {
    if ks == [] then Conv(true, h, cells, next)
    else
      var r := WalkOn(h, cells, next, o, ks[..|ks| - 1], m);
      if !r.ok then r
      else
        var k := ks[|ks| - 1];
        DefineOn(r.heap, r.cells, r.next, o, k, Get(r.heap, r.cells, o, k), m)
  }

  /** `defineReactive(o, k, val)`: observe `val`, then make cell `next`
      holding `val` with an empty `Dep` and install it on `o[k]`. */
  function DefineOn(h: Heap, cells: Cells, next: nat, o: ObjId, k: string, val: Value, m: nat): Conv
    decreases m, 2
  {
    var r := ObserveOn(h, cells, next, val, m);
    if !r.ok then r
    else Conv(true, Bind(r.heap, o, k, r.next), r.cells[r.next := Cell((o, k), val, [])], r.next + 1)
  }

  /** What every conversion keeps: the heap stays well formed, cell numbers
      only grow and existing cells are untouched. */
  ghost predicate Keeps(h: Heap, nextObj: nat, cells: Cells, next: nat, r: Conv)
  {
    WfHeap(r.heap, nextObj, r.cells, r.next) && next <= r.next && Extends(cells, r.cells)
  }

  /** `observe(v)` changes nothing any getter shows; it returns normally
      exactly when the records reachable from `v` nest at most `n` deep; and
      it rebinds every property it reaches to a new cell with no subscribers
      (when it overflows, some of them), leaving all others alone. */
  lemma {:induction false} ObserveOnSpec(h: Heap, nextObj: nat, cells: Cells, next: nat, v: Value, n: nat)
    requires WfHeap(h, nextObj, cells, next)
    ensures var r := ObserveOn(h, cells, next, v, n);
            && Keeps(h, nextObj, cells, next, r)
            && ViewOf(r.heap, r.cells) == ViewOf(h, cells)
            && r.ok == Fits(ViewOf(h, cells), v, n)
            && Reactivated(h, next, r.heap, r.cells, ReachProps(ViewOf(h, cells), v, n), r.ok)
    decreases n, 1
  {
    var g := ViewOf(h, cells);
    if ObserveSkips(v) || v.id !in h || h[v.id].ArrayObj? || n == 0 {
      ReactivatedNone(h, next, cells);
    } else {
      var o := v.id;
      assert g[o] == ViewOfObj(h[o], cells);
      ViewWf(h, nextObj, cells, next);
      FitsByKeys(g, o, n);
      ReachPropsByKeys(g, o, n);
      WalkOnSpec(h, nextObj, cells, next, o, h[o].keys, n - 1);
    }
  }

  /** `walk` over the keys `ks` of record `o`: nothing the getters show
      changes; it completes exactly when every field fits; it rebinds the
      visited keys and what their values reach. */
  lemma {:induction false} WalkOnSpec(h: Heap, nextObj: nat, cells: Cells, next: nat, o: ObjId, ks: seq<string>, m: nat)
    requires WfHeap(h, nextObj, cells, next)
    requires o in h && h[o].RecordObj? && forall k | k in ks :: k in h[o].slots
    ensures o in ViewOf(h, cells) && ViewOf(h, cells)[o].RecordView?
    ensures forall k | k in ks :: k in ViewOf(h, cells)[o].vals
    ensures var r := WalkOn(h, cells, next, o, ks, m);
            var g := ViewOf(h, cells);
            && Keeps(h, nextObj, cells, next, r)
            && ViewOf(r.heap, r.cells) == g
            && r.ok == (forall j | 0 <= j < |ks| :: Fits(g, g[o].vals[ks[j]], m))
            && Reactivated(h, next, r.heap, r.cells, ReachFrom(g, o, ks, m), r.ok)
    decreases m, 3, |ks|
  {
    var g := ViewOf(h, cells);
    assert g[o] == ViewOfObj(h[o], cells);
    if ks == [] {
      ReactivatedNone(h, next, cells);
    } else {
      var init := ks[..|ks| - 1];
      assert forall j | 0 <= j < |init| :: init[j] == ks[j];
      WalkOnSpec(h, nextObj, cells, next, o, init, m);
      WalkOnTurn(h, nextObj, cells, next, o, ks, m);
    }
  }

  /** The last turn of a `walk`, given what the earlier turns did. */
  lemma {:induction false} WalkOnTurn(h: Heap, nextObj: nat, cells: Cells, next: nat, o: ObjId, ks: seq<string>, m: nat)
    requires WfHeap(h, nextObj, cells, next)
    requires o in h && h[o].RecordObj? && ks != [] && forall k | k in ks :: k in h[o].slots
    requires var r1 := WalkOn(h, cells, next, o, ks[..|ks| - 1], m);
             var g := ViewOf(h, cells);
             && o in g && g[o].RecordView? && (forall k | k in ks :: k in g[o].vals)
             && Keeps(h, nextObj, cells, next, r1)
             && ViewOf(r1.heap, r1.cells) == g
             && r1.ok == (forall j | 0 <= j < |ks| - 1 :: Fits(g, g[o].vals[ks[j]], m))
             && Reactivated(h, next, r1.heap, r1.cells, ReachFrom(g, o, ks[..|ks| - 1], m), r1.ok)
    ensures var r := WalkOn(h, cells, next, o, ks, m);
            var g := ViewOf(h, cells);
            && Keeps(h, nextObj, cells, next, r)
            && ViewOf(r.heap, r.cells) == g
            && r.ok == (forall j | 0 <= j < |ks| :: Fits(g, g[o].vals[ks[j]], m))
            && Reactivated(h, next, r.heap, r.cells, ReachFrom(g, o, ks, m), r.ok)
    decreases m, 2, 2
  {
    var r1 := WalkOn(h, cells, next, o, ks[..|ks| - 1], m);
    if !r1.ok {
      WalkOnOverflowed(h, nextObj, cells, next, o, ks, m, r1);
    } else {
      WalkOnStep(h, nextObj, cells, next, o, ks, m, r1);
    }
  }

  /** A `walk` whose earlier turns overflowed: the last key is never
      visited. */
  lemma WalkOnOverflowed(h: Heap, nextObj: nat, cells: Cells, next: nat, o: ObjId, ks: seq<string>, m: nat, r1: Conv)
    requires o in h && h[o].RecordObj? && ks != []
    requires var g := ViewOf(h, cells);
             && o in g && g[o].RecordView? && (forall k | k in ks :: k in g[o].vals)
             && r1 == WalkOn(h, cells, next, o, ks[..|ks| - 1], m) && !r1.ok
             && Keeps(h, nextObj, cells, next, r1)
             && ViewOf(r1.heap, r1.cells) == g
             && !(forall j | 0 <= j < |ks| - 1 :: Fits(g, g[o].vals[ks[j]], m))
             && Reactivated(h, next, r1.heap, r1.cells, ReachFrom(g, o, ks[..|ks| - 1], m), false)
    ensures var r := WalkOn(h, cells, next, o, ks, m);
            var g := ViewOf(h, cells);
            && Keeps(h, nextObj, cells, next, r)
            && ViewOf(r.heap, r.cells) == g
            && !r.ok && !(forall j | 0 <= j < |ks| :: Fits(g, g[o].vals[ks[j]], m))
            && Reactivated(h, next, r.heap, r.cells, ReachFrom(g, o, ks, m), false)
  {
    var g := ViewOf(h, cells);
    ReactivatedWeaken(h, next, r1.heap, r1.cells, ReachFrom(g, o, ks[..|ks| - 1], m), ReachFrom(g, o, ks, m));
  }

  /** The last turn of a `walk` whose earlier turns completed. */
  lemma {:induction false} WalkOnStep(h: Heap, nextObj: nat, cells: Cells, next: nat, o: ObjId, ks: seq<string>, m: nat, r1: Conv)
    requires WfHeap(h, nextObj, cells, next)
    requires o in h && h[o].RecordObj? && ks != [] && forall k | k in ks :: k in h[o].slots
    requires var g := ViewOf(h, cells);
             && o in g && g[o].RecordView? && (forall k | k in ks :: k in g[o].vals)
             && r1 == WalkOn(h, cells, next, o, ks[..|ks| - 1], m) && r1.ok
             && Keeps(h, nextObj, cells, next, r1)
             && ViewOf(r1.heap, r1.cells) == g
             && (forall j | 0 <= j < |ks| - 1 :: Fits(g, g[o].vals[ks[j]], m))
             && Reactivated(h, next, r1.heap, r1.cells, ReachFrom(g, o, ks[..|ks| - 1], m), true)
    ensures var r := WalkOn(h, cells, next, o, ks, m);
            var g := ViewOf(h, cells);
            && Keeps(h, nextObj, cells, next, r)
            && ViewOf(r.heap, r.cells) == g
            && r.ok == (forall j | 0 <= j < |ks| :: Fits(g, g[o].vals[ks[j]], m))
            && Reactivated(h, next, r.heap, r.cells, ReachFrom(g, o, ks, m), r.ok)
    decreases m, 2, 1
  {
    var g := ViewOf(h, cells);
    var init, k := ks[..|ks| - 1], ks[|ks| - 1];
    var cur := Get(r1.heap, r1.cells, o, k);
    assert cur == g[o].vals[k];
    assert o in r1.heap && r1.heap[o].RecordObj? && k in r1.heap[o].slots by {
      assert SameShape(h[o], r1.heap[o]);
    }
    DefineOnSpec(r1.heap, nextObj, r1.cells, r1.next, o, k, cur, m);
    var r := WalkOn(h, cells, next, o, ks, m);
    assert r == DefineOn(r1.heap, r1.cells, r1.next, o, k, cur, m);
    ExtendsTrans(cells, r1.cells, r.cells);
    WriteSame(g, o, k);
    WalkStep(h, next, r1.heap, r1.cells, r1.next, r.heap, r.cells,
             ReachFrom(g, o, init, m), ReachProps(g, cur, m), (o, k), r.ok);
  }

  /** `defineReactive(o, k, val)`: it completes exactly when `val` fits, and
      then the getters show `o[k] = val`; it rebinds what `val` reaches and
      `o[k]` itself, to a new cell that holds `val` and has no subscribers. */
  lemma {:induction false} DefineOnSpec(h: Heap, nextObj: nat, cells: Cells, next: nat, o: ObjId, k: string, val: Value, m: nat)
    requires WfHeap(h, nextObj, cells, next)
    requires o in h && h[o].RecordObj? && k in h[o].slots
    ensures var r := DefineOn(h, cells, next, o, k, val, m);
            var g := ViewOf(h, cells);
            && Keeps(h, nextObj, cells, next, r)
            && r.ok == Fits(g, val, m)
            && ViewOf(r.heap, r.cells) == (if r.ok then WriteAt(g, o, k, val) else g)
            && Reactivated(h, next, r.heap, r.cells, ReachProps(g, val, m) + (if r.ok then {(o, k)} else {}), r.ok)
            && (r.ok ==> r.heap[o].slots[k].Live? && r.cells[r.heap[o].slots[k].cell] == Cell((o, k), val, []))
    decreases m, 2, 0
  {
    ObserveOnSpec(h, nextObj, cells, next, val, m);
    var r1 := ObserveOn(h, cells, next, val, m);
    var props := ReachProps(ViewOf(h, cells), val, m);
    if r1.ok {
      DefineInstalls(h, nextObj, cells, next, o, k, val, r1, props);
    } else {
      assert DefineOn(h, cells, next, o, k, val, m) == r1;
      assert props + {} == props;
    }
  }

  /** The second half of `defineReactive`, once `observe(val)` returned. */
  lemma DefineInstalls(h: Heap, nextObj: nat, cells: Cells, next: nat, o: ObjId, k: string, val: Value,
                       r1: Conv, props: set<Prop>)
    requires WfHeap(h, nextObj, cells, next)
    requires o in h && h[o].RecordObj? && k in h[o].slots
    requires Keeps(h, nextObj, cells, next, r1) && ViewOf(r1.heap, r1.cells) == ViewOf(h, cells)
    requires Reactivated(h, next, r1.heap, r1.cells, props, true)
    ensures var r := Conv(true, Bind(r1.heap, o, k, r1.next), r1.cells[r1.next := Cell((o, k), val, [])], r1.next + 1);
            && Keeps(h, nextObj, cells, next, r)
            && ViewOf(r.heap, r.cells) == WriteAt(ViewOf(h, cells), o, k, val)
            && Reactivated(h, next, r.heap, r.cells, props + {(o, k)}, true)
            && r.heap[o].slots[k].Live? && r.cells[r.heap[o].slots[k].cell] == Cell((o, k), val, [])
  {
    var r := Conv(true, Bind(r1.heap, o, k, r1.next), r1.cells[r1.next := Cell((o, k), val, [])], r1.next + 1);
    assert SameShape(h[o], r1.heap[o]);
    BindWf(r1.heap, nextObj, r1.cells, r1.next, o, k, val);
    BindView(r1.heap, nextObj, r1.cells, r1.next, o, k, val);
    BindReactivated(r1.heap, nextObj, r1.cells, r1.next, o, k, val);
    ExtendsTrans(cells, r1.cells, r.cells);
    ReactivatedTrans(h, next, r1.heap, r1.cells, r1.next, r.heap, r.cells, props, {(o, k)}, true, true);
  }

  /** A `walk` that overflowed at some key returns that state unchanged
      through the remaining keys. */
  lemma {:induction false} WalkOnStops(h: Heap, cells: Cells, next: nat, o: ObjId, ks: seq<string>, i: nat, m: nat)
    requires i <= |ks| && !WalkOn(h, cells, next, o, ks[..i], m).ok
    ensures WalkOn(h, cells, next, o, ks, m) == WalkOn(h, cells, next, o, ks[..i], m)
    decreases |ks| - i
  {
    if i < |ks| {
      assert ks[..i + 1][..i] == ks[..i];
      WalkOnStops(h, cells, next, o, ks, i + 1, m);
    } else {
      assert ks[..i] == ks;
    }
  }
}
