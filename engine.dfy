/** The running system: the heap with its intercepted properties, the cell
    table, the KVue instances, the global `Dep.target`, and the calls made to
    update callbacks. Each method performs one operation of kvue.js in place. */
module Runtime {
  import opened JsValues
  import opened HeapView
  import opened Ledger
  import opened Reactive

  /** A plain data property `o[k] = v` on a record: written in place, or
      added after the existing keys. */
  function PutPlain(ob: Obj, k: string, v: Value): (ob': Obj)
    requires ob.RecordObj?
    ensures ob'.RecordObj? && ob'.slots == ob.slots[k := Plain(v)]
    ensures k in ob.slots ==> ob'.keys == ob.keys
    ensures k !in ob.slots ==> ob'.keys == ob.keys + [k]
  {
    RecordObj(if k in ob.slots then ob.keys else ob.keys + [k], ob.slots[k := Plain(v)])
  }

  /** Through the getters, storing a plain value is the assignment `o[k] = v`. */
  lemma PutPlainObjView(ob: Obj, k: string, v: Value, cells: Cells)
    requires ob.RecordObj?
    ensures ViewOfObj(PutPlain(ob, k, v), cells) == Put(ViewOfObj(ob, cells), k, v)
  {
    var ob' := PutPlain(ob, k, v);
    var vals, vals' := ViewOfObj(ob, cells).vals, ViewOfObj(ob', cells).vals;
    assert forall j | j in ob'.slots && j != k :: ob'.slots[j] == ob.slots[j];
    assert vals' == vals[k := v];
  }

  /** Storing a plain value into a key that has no setter keeps the record
      well formed. */
  lemma PutPlainWf(o: ObjId, ob: Obj, k: string, v: Value, cells: Cells)
    requires ob.RecordObj? && WfObj(o, ob, cells)
    requires k in ob.slots ==> ob.slots[k].Plain?
    ensures WfObj(o, PutPlain(ob, k, v), cells)
  {
    var ob' := PutPlain(ob, k, v);
    if k !in ob.slots {
      forall i, j | 0 <= i < j < |ob'.keys| ensures ob'.keys[i] != ob'.keys[j] {
        if j == |ob.keys| {
          assert ob'.keys[i] == ob.keys[i];
        }
      }
    }
  }

  /** A record object with the plain (not yet intercepted) fields of an
      object literal, stored left to right. */
  function RecordOf(fields: seq<(string, Value)>): (ob: Obj)
    ensures ob.RecordObj? && forall k | k in ob.slots :: ob.slots[k].Plain?
  {
    if fields == [] then RecordObj([], map[])
    else PutPlain(RecordOf(fields[..|fields| - 1]), fields[|fields| - 1].0, fields[|fields| - 1].1)
  }

  /** The heap object built for a literal shows as that literal, and is
      well formed wherever it is placed. */
  lemma {:induction false} RecordOfView(fields: seq<(string, Value)>, o: ObjId, cells: Cells)
    ensures WfObj(o, RecordOf(fields), cells)
    ensures ViewOfObj(RecordOf(fields), cells) == Literal(fields)
  {
    if fields != [] {
      var init, f := fields[..|fields| - 1], fields[|fields| - 1];
      RecordOfView(init, o, cells);
      PutPlainObjView(RecordOf(init), f.0, f.1, cells);
      PutPlainWf(o, RecordOf(init), f.0, f.1, cells);
    }
  }

  /** Replacing one object changes the view of that object only. */
  lemma ReplaceView(h: Heap, cells: Cells, o: ObjId, ob: Obj)
    ensures ViewOf(h[o := ob], cells) == ViewOf(h, cells)[o := ViewOfObj(ob, cells)]
  {
  }

  /** Storing into a property that has no setter shows as the plain
      assignment, and keeps the heap well formed. */
  lemma PutPlainView(h: Heap, nextObj: nat, cells: Cells, nextCell: nat, o: ObjId, k: string, v: Value)
    requires WfHeap(h, nextObj, cells, nextCell) && o in h && h[o].RecordObj?
    requires k in h[o].slots ==> h[o].slots[k].Plain?
    ensures WfHeap(h[o := PutPlain(h[o], k, v)], nextObj, cells, nextCell)
    ensures ViewOf(h[o := PutPlain(h[o], k, v)], cells) == WriteAt(ViewOf(h, cells), o, k, v)
  {
    assert WfObj(o, h[o], cells);
    PutPlainWf(o, h[o], k, v, cells);
    PutPlainObjView(h[o], k, v, cells);
    ReplaceView(h, cells, o, PutPlain(h[o], k, v));
  }

  /** A new object placed at the next free id shows as itself and leaves
      every other object as it was. */
  lemma AllocView(h: Heap, nextObj: nat, cells: Cells, nextCell: nat, ob: Obj)
    requires WfHeap(h, nextObj, cells, nextCell) && WfObj(nextObj, ob, cells)
    ensures nextObj !in h
    ensures WfHeap(h[nextObj := ob], nextObj + 1, cells, nextCell)
    ensures ViewOf(h[nextObj := ob], cells) == ViewOf(h, cells)[nextObj := ViewOfObj(ob, cells)]
  {
  }

  /** When `observe` rebound the properties `props`, an older cell is still
      bound exactly when it was bound before and its property is not one of
      them. */
  lemma ReactivatedBound(h0: Heap, c0: Cells, n0: nat, h1: Heap, c1: Cells, props: set<Prop>, id: CellId)
    requires id in c0 && id < n0 && Extends(c0, c1)
    requires Reactivated(h0, n0, h1, c1, props, true)
    ensures Bound(h1, c1, id) <==> Bound(h0, c0, id) && c0[id].home !in props
  {
    var (o, k) := c0[id].home;
    if o in h1 && h1[o].RecordObj? && k in h1[o].slots {
      assert SameShape(h0[o], h1[o]);
      if h1[o].slots[k] != h0[o].slots[k] {
        assert Renewed(h1[o].slots[k], c1, n0);
      }
    }
  }

  /** What the setter of cell `id` did when handed `v`, taking heap `h0`,
      cells `c0` (next number `n0`) and call log `log0` to `h`, `c` and `log`,
      with `n` levels of stack for `observe`. */
  ghost predicate SetOutcome(h0: Heap, c0: Cells, n0: nat, log0: seq<Delivery>,
                             h: Heap, c: Cells, log: seq<Delivery>, vms: seq<Vm>, n: nat,
                             id: CellId, v: Value, r: Result<()>)
  {
    var g0 := ViewOf(h0, c0);
    && id in c0 && id in c
    && if c0[id].val == v then
         r == Ok(()) && h == h0 && c == c0 && log == log0
       else
         && (r.Ok? <==> Fits(g0, v, n))
         && Reactivated(h0, n0, h, c, ReachProps(g0, v, n), r.Ok?)
         && (forall j | j in c0 && j != id :: j in c && c[j] == c0[j])
         && (r.Err? ==> r.error == RangeError && ViewOf(h, c) == g0 && log == log0 && c[id] == c0[id])
         && (r.Ok? ==>
               && c[id] == c0[id].(val := v)
               && (Bound(h, c, id) <==> Bound(h0, c0, id) && c0[id].home !in ReachProps(g0, v, n))
               && ViewOf(h, c) == (if Bound(h, c, id) then WriteAt(g0, c0[id].home.0, c0[id].home.1, v) else g0)
               && log == log0 + Deliveries(ViewOf(h, c), vms, c0[id].deps))
  }

  /** A setter whose `observe` overflowed: the closure keeps its value and
      nobody is notified. */
  lemma SetterFails(h0: Heap, c0: Cells, n0: nat, nextObj: nat, log0: seq<Delivery>,
                    h1: Heap, c1: Cells, vms: seq<Vm>, n: nat, id: CellId, v: Value)
    requires WfHeap(h0, nextObj, c0, n0) && id in c0 && c0[id].val != v
    requires Extends(c0, c1) && ViewOf(h1, c1) == ViewOf(h0, c0) && !Fits(ViewOf(h0, c0), v, n)
    requires Reactivated(h0, n0, h1, c1, ReachProps(ViewOf(h0, c0), v, n), false)
    ensures SetOutcome(h0, c0, n0, log0, h1, c1, log0, vms, n, id, v, Err(RangeError))
  {
  }

  /** A setter whose `observe` returned: the closure now holds `v`, the
      property shows it unless `observe` replaced the cell, and every
      subscriber is called with what its key now reads. */
  lemma SetterDone(h0: Heap, c0: Cells, n0: nat, nextObj: nat, log0: seq<Delivery>,
                   h1: Heap, c1: Cells, n1: nat, c2: Cells, log: seq<Delivery>, vms: seq<Vm>, n: nat,
                   id: CellId, v: Value)
    requires WfHeap(h0, nextObj, c0, n0) && id in c0 && c0[id].val != v
    requires WfHeap(h1, nextObj, c1, n1) && Extends(c0, c1) && n0 <= n1
    requires ViewOf(h1, c1) == ViewOf(h0, c0) && Fits(ViewOf(h0, c0), v, n)
    requires Reactivated(h0, n0, h1, c1, ReachProps(ViewOf(h0, c0), v, n), true)
    requires c2 == c1[id := c1[id].(val := v)]
    requires log == log0 + Deliveries(ViewOf(h1, c2), vms, c2[id].deps)
    ensures SetOutcome(h0, c0, n0, log0, h1, c2, log, vms, n, id, v, Ok(()))
  {
    var g0 := ViewOf(h0, c0);
    ReactivatedBound(h0, c0, n0, h1, c1, ReachProps(g0, v, n), id);
    SetValView(h1, nextObj, c1, n1, id, v);
    ReactivatedSameDeps(h0, n0, h1, c1, c2, ReachProps(g0, v, n), true);
  }

  /** The outcome of the assignment `o[key] = v` on a heap object: the
      setter runs when the property is intercepted; otherwise the value is
      stored as a plain data property (an array, or a dangling id, takes no
      keys here), nothing is notified and no ledger changes. */
  ghost predicate PropOutcome(h0: Heap, c0: Cells, n0: nat, log0: seq<Delivery>,
                              h: Heap, c: Cells, log: seq<Delivery>, vms: seq<Vm>, n: nat,
                              o: ObjId, key: string, v: Value, r: Result<()>)
  {
    if o in h0 && h0[o].RecordObj? && key in h0[o].slots && h0[o].slots[key].Live? then
      SetOutcome(h0, c0, n0, log0, h, c, log, vms, n, h0[o].slots[key].cell, v, r)
    else
      && r == Ok(()) && c == c0 && log == log0
      && h == (if o in h0 && h0[o].RecordObj? then h0[o := PutPlain(h0[o], key, v)] else h0)
      && ViewOf(h, c) == WriteAt(ViewOf(h0, c0), o, key, v)
  }

  /** An assignment that returns normally reads back as the plain
      assignment, unless `v` leads back to the very property assigned: then
      `observe(v)` gave that property a new cell holding its old value, and
      the setter wrote `v` into the closure it was called on, which no getter
      reaches any more. */
  lemma AssignWrites(h0: Heap, c0: Cells, n0: nat, nextObj: nat, log0: seq<Delivery>,
                     h: Heap, c: Cells, log: seq<Delivery>, vms: seq<Vm>, n: nat,
                     o: ObjId, key: string, v: Value, r: Result<()>)
    requires WfHeap(h0, nextObj, c0, n0)
    requires PropOutcome(h0, c0, n0, log0, h, c, log, vms, n, o, key, v, r) && r.Ok?
    ensures ViewOf(h, c) == WriteAt(ViewOf(h0, c0), o, key, v) ||
              (ViewOf(h, c) == ViewOf(h0, c0) && (o, key) in ReachProps(ViewOf(h0, c0), v, n))
    ensures (o, key) !in ReachProps(ViewOf(h0, c0), v, n) ==> ViewOf(h, c) == WriteAt(ViewOf(h0, c0), o, key, v)
  {
    var g0 := ViewOf(h0, c0);
    if o in h0 && h0[o].RecordObj? && key in h0[o].slots && h0[o].slots[key].Live? {
      var id := h0[o].slots[key].cell;
      assert WfObj(o, h0[o], c0);
      assert c0[id].home == (o, key) && Bound(h0, c0, id);
      if c0[id].val == v {
        assert ReadAt(g0, o, key) == v;
        WriteSame(g0, o, key);
      }
    }
  }

  class Engine {
    var heap: Heap
    var nextObj: nat
    var cells: Cells
    var nextCell: nat
    var vms: seq<Vm>
    var target: Option<Watcher>
    var nextWatcher: nat
    var log: seq<Delivery>
    /** How many nested `observe` levels the host's call stack allows. */
    const depthLimit: nat

    ghost predicate Valid()
      reads this`heap, this`nextObj, this`cells, this`nextCell
    {
      WfHeap(heap, nextObj, cells, nextCell)
    }

    /** The heap as its getters show it. */
    ghost function View(): Graph
      reads this`heap, this`cells
    {
      ViewOf(heap, cells)
    }

    constructor (depthLimit: nat)
      ensures Valid() && this.depthLimit == depthLimit
      ensures heap == map[] && cells == map[] && vms == [] && target == None && log == []
      ensures nextObj == 0 && nextCell == 0 && nextWatcher == 0
    {
      heap := map[];
      nextObj := 0;
      cells := map[];
      nextCell := 0;
      vms := [];
      target := None;
      nextWatcher := 0;
      log := [];
      this.depthLimit := depthLimit;
    }

    /** The cell whose getter an access `host[key]` runs, if any. */
    function CellAt(host: Host, key: string): (at: Option<CellId>)
      reads this
      ensures at.Some? <==>
                && Locate(vms, host, key).Some?
                && var o := Locate(vms, host, key).value;
                   o in heap && heap[o].RecordObj? && key in heap[o].slots && heap[o].slots[key].Live?
      ensures at.Some? ==> heap[Locate(vms, host, key).value].slots[key] == Live(at.value)
    {
      match Locate(vms, host, key)
      case None => None
      case Some(o) =>
        if o in heap && heap[o].RecordObj? && key in heap[o].slots && heap[o].slots[key].Live?
        then Some(heap[o].slots[key].cell)
        else None
    }

    /** The value `host[key]` reads as, without the getter's side effect. */
    function Lookup(host: Host, key: string): (v: Value)
      reads this
      ensures v == ReadThrough(View(), vms, host, key)
    {
      match Locate(vms, host, key)
      case None => Undefined
      case Some(o) => Get(heap, cells, o, key)
    }

    /** `dep.addDep(w)`: append, with no uniqueness check. */
    method AddDep(id: CellId, w: Watcher)
      requires id in cells
      modifies this`cells
      ensures cells == AddDepTo(old(cells), id, w)
    {
      cells := AddDepTo(cells, id, w);
    }

    /** A property access `host[key]`, reached directly or through a `proxy`
        accessor. When it runs a getter and `Dep.target` is set, the target is
        appended to that cell's `Dep`. */
    method Read(host: Host, key: string) returns (v: Value)
      requires Valid()
      modifies this`cells
      ensures v == ReadThrough(old(View()), vms, host, key)
      ensures cells == Registered(old(cells), CellAt(host, key), target)
      ensures Valid() && View() == old(View())
    {
      v := Lookup(host, key);
      var at := CellAt(host, key);
      if at.Some? && at.value in cells && target.Some? {
        AddDep(at.value, target.value);
        SameValsSameView(heap, old(cells), cells);
      }
    }

    /** `observe(v)`: nothing for a non-object, null or an array; for a
        record, `walk`: for each key in order, read `obj[key]` and hand it to
        `defineReactive`. `n` is the number of nested levels the call stack
        still allows; when it runs out the call fails with the conversions
        made so far left in place. */
    method Observe(v: Value, n: nat) returns (ok: bool)
      requires target.None?
      modifies this`heap, this`cells, this`nextCell
      decreases n, 1
      ensures Conv(ok, heap, cells, nextCell) == ObserveOn(old(heap), old(cells), old(nextCell), v, n)
    {
      if ObserveSkips(v) || v.id !in heap || heap[v.id].ArrayObj? {
        return true;
      }
      if n == 0 {
        return false;
      }
      var o := v.id;
      var keys := heap[o].keys;
      var i := 0;
      while i < |keys|
        invariant 0 <= i <= |keys|
        invariant Conv(true, heap, cells, nextCell) == WalkOn(old(heap), old(cells), old(nextCell), o, keys[..i], n - 1)
      {
        var k := keys[i];
        // `obj[key]` runs the getter, if any, with no target set: nothing registers
        var cur := Get(heap, cells, o, k);
        ok := DefineReactive(o, k, cur, n - 1);
        assert keys[..i + 1][..i] == keys[..i];
        if !ok {
          WalkOnStops(old(heap), old(cells), old(nextCell), o, keys, i + 1, n - 1);
          return;
        }
        i := i + 1;
      }
      assert keys[..i] == keys;
      ok := true;
    }

    /** `defineReactive(obj, key, val)`: observe `val` first, then make a new
        cell holding `val` with an empty `Dep`, and install its getter and
        setter on `obj[key]`. When observing `val` overflows the stack nothing
        is installed. */
    method DefineReactive(o: ObjId, k: string, val: Value, m: nat) returns (ok: bool)
      requires target.None?
      modifies this`heap, this`cells, this`nextCell
      decreases m, 2
      ensures Conv(ok, heap, cells, nextCell) == DefineOn(old(heap), old(cells), old(nextCell), o, k, val, m)
    {
      ok := Observe(val, m);
      if !ok {
        return;
      }
      cells := cells[nextCell := Cell((o, k), val, [])];
      heap := Bind(heap, o, k, nextCell);
      nextCell := nextCell + 1;
    }

    /** `observe(v)` from a setter or a constructor, with the whole stack
        allowance: it leaves everything the getters show as it was, returns
        normally exactly when `v` fits, and rebinds what it reaches. */
    method ObserveTop(v: Value) returns (ok: bool)
      requires Valid() && target.None?
      modifies this`heap, this`cells, this`nextCell
      ensures Valid() && old(nextCell) <= nextCell && Extends(old(cells), cells)
      ensures View() == old(View())
      ensures ok == Fits(old(View()), v, depthLimit)
      ensures Reactivated(old(heap), old(nextCell), heap, cells, ReachProps(old(View()), v, depthLimit), ok)
    {
      ObserveOnSpec(heap, nextObj, cells, nextCell, v, depthLimit);
      ok := Observe(v, depthLimit);
    }

    /** `Watcher.update`: read `vm[key]` and hand the value to the callback. */
    method Update(w: Watcher)
      requires Valid()
      modifies this`cells, this`log
      ensures log == old(log) + [Delivery(w, ReadThrough(old(View()), vms, w.host, w.key))]
      ensures cells == Registered(old(cells), CellAt(w.host, w.key), target)
      ensures Valid() && View() == old(View())
    {
      var v := Read(w.host, w.key);
      log := log + [Delivery(w, v)];
    }

    /** `dep.notify()`: update every subscriber in list order, once per
        entry. */
    method Notify(id: CellId)
      requires Valid() && id in cells && target.None?
      modifies this`cells, this`log
      ensures cells == old(cells)
      ensures log == old(log) + Deliveries(View(), vms, cells[id].deps)
    {
      var deps := cells[id].deps;
      var i := 0;
      while i < |deps|
        invariant 0 <= i <= |deps|
        invariant Valid() && cells == old(cells)
        invariant log == old(log) + Deliveries(View(), vms, deps[..i])
      {
        Update(deps[i]);
        assert deps[..i + 1][..i] == deps[..i];
        i := i + 1;
      }
      assert deps[..i] == deps;
    }

    /** The setter of cell `id`: a value equal (`===`) to the captured one
        changes nothing; otherwise observe the new value, store it in the
        closure and notify the subscribers. */
    method Setter(id: CellId, v: Value) returns (r: Result<()>)
      requires Valid() && target.None? && id in cells
      modifies this`heap, this`cells, this`nextCell, this`log
      ensures Valid() && vms == old(vms)
      ensures SetOutcome(old(heap), old(cells), old(nextCell), old(log), heap, cells, log, vms, depthLimit, id, v, r)
    {
      if cells[id].val == v {
        return Ok(());
      }
      var ok := ObserveTop(v);
      if !ok {
        SetterFails(old(heap), old(cells), old(nextCell), nextObj, old(log), heap, cells, vms, depthLimit, id, v);
        return Err(RangeError);
      }
      ghost var c1 := cells;
      cells := cells[id := cells[id].(val := v)];
      SetValView(heap, nextObj, c1, nextCell, id, v);
      Notify(id);
      SetterDone(old(heap), old(cells), old(nextCell), nextObj, old(log), heap, c1, nextCell, cells, log, vms, depthLimit, id, v);
      r := Ok(());
    }

    /** The assignment `obj[key] = v` on a heap object. */
    method SetProp(o: ObjId, key: string, v: Value) returns (r: Result<()>)
      requires Valid() && target.None?
      modifies this`heap, this`cells, this`nextCell, this`log
      ensures Valid() && vms == old(vms)
      ensures PropOutcome(old(heap), old(cells), old(nextCell), old(log), heap, cells, log, vms, depthLimit, o, key, v, r)
    {
      if o in heap && heap[o].RecordObj? && key in heap[o].slots && heap[o].slots[key].Live? {
        assert WfObj(o, heap[o], cells);
        r := Setter(heap[o].slots[key].cell, v);
      } else {
        if o in heap && heap[o].RecordObj? {
          PutPlainView(heap, nextObj, cells, nextCell, o, key, v);
          heap := heap[o := PutPlain(heap[o], key, v)];
        }
        r := Ok(());
      }
    }

    /** The assignment `host[key] = v`. On a KVue instance a key installed by
        `proxy` forwards to `vm.$data[key] = v`; any other key of the instance
        is an own property of the instance, which is not modelled. */
    method Assign(host: Host, key: string, v: Value) returns (r: Result<()>)
      requires Valid() && target.None?
      modifies this`heap, this`cells, this`nextCell, this`log
      ensures Valid() && vms == old(vms)
      ensures match Locate(vms, host, key)
              case None => r == Ok(()) && heap == old(heap) && cells == old(cells) && log == old(log)
              case Some(o) => PropOutcome(old(heap), old(cells), old(nextCell), old(log), heap, cells, log, vms, depthLimit, o, key, v, r)
    {
      match Locate(vms, host, key)
      case None =>
        r := Ok(());
      case Some(o) =>
        r := SetProp(o, key, v);
    }

    /** `new Watcher(vm, key, updateFn)`: set `Dep.target` to the new watcher,
        read `vm[key]` once so that its getter registers the watcher, and
        clear the register. */
    method NewWatcher(host: Host, key: string) returns (w: Watcher)
      requires Valid() && target.None?
      modifies this`cells, this`target, this`nextWatcher
      ensures w == Watcher(old(nextWatcher), host, key) && nextWatcher == old(nextWatcher) + 1
      ensures target.None?
      ensures cells == Registered(old(cells), CellAt(host, key), Some(w))
      ensures Valid() && View() == old(View())
    {
      w := Watcher(nextWatcher, host, key);
      nextWatcher := nextWatcher + 1;
      target := Some(w);
      var _ := Read(host, key);
      target := None;
    }

    /** `proxy(vm)` for instance `i`: `Object.keys(vm.$data)` throws on null
        and undefined; otherwise each key, in order, gets an accessor on the
        instance that forwards to `vm.$data[key]`. */
    method Proxy(i: nat) returns (r: Result<()>)
      requires i < |vms|
      modifies this`vms
      ensures LooselyNull(old(vms)[i].data) ==> r == Err(TypeError) && vms == old(vms)
      ensures !LooselyNull(old(vms)[i].data) ==>
                && r == Ok(())
                && vms == old(vms)[i := Vm(old(vms)[i].data, old(vms)[i].proxied + KeysOf(View(), old(vms)[i].data))]
    {
      var data := vms[i].data;
      if LooselyNull(data) {
        return Err(TypeError);
      }
      var keys := if data.Ref? && data.id in heap && heap[data.id].RecordObj? then heap[data.id].keys else [];
      assert keys == KeysOf(View(), data);
      assert old(vms)[i].proxied + keys[..0] == old(vms)[i].proxied;
      var j := 0;
      while j < |keys|
        invariant 0 <= j <= |keys|
        invariant vms == old(vms)[i := Vm(data, old(vms)[i].proxied + keys[..j])]
      {
        // `Object.defineProperty(vm, key, ...)`
        vms := vms[i := Vm(data, vms[i].proxied + [keys[j]])];
        assert old(vms)[i].proxied + keys[..j + 1] == old(vms)[i].proxied + keys[..j] + [keys[j]];
        j := j + 1;
      }
      assert keys[..j] == keys;
      r := Ok(());
    }

    /** The reactive part of `new KVue({data})`: `observe(this.$data)`, then
        `proxy(this)`. The new instance is numbered `|vms|`; the constructor
        throws, and no instance is made, when `observe` overflows the stack
        or when `$data` is null or undefined (what `observe` did stays). */
    method MakeReactive(data: Value) returns (r: Result<nat>)
      requires Valid() && target.None?
      modifies this`heap, this`cells, this`nextCell, this`vms
      ensures Valid() && old(nextCell) <= nextCell && Extends(old(cells), cells)
      ensures View() == old(View())
      ensures Reactivated(old(heap), old(nextCell), heap, cells, ReachProps(old(View()), data, depthLimit),
                          Fits(old(View()), data, depthLimit))
      ensures !Fits(old(View()), data, depthLimit) ==> r == Err(RangeError) && vms == old(vms)
      ensures Fits(old(View()), data, depthLimit) && LooselyNull(data) ==>
                r == Err(TypeError) && vms == old(vms)
      ensures Fits(old(View()), data, depthLimit) && !LooselyNull(data) ==>
                r == Ok(|old(vms)|) && vms == old(vms) + [Vm(data, KeysOf(old(View()), data))]
    {
      var ok := ObserveTop(data);
      if !ok {
        return Err(RangeError);
      }
      vms := vms + [Vm(data, [])];
      var p := Proxy(|vms| - 1);
      if p.Err? {
        // the constructor throws: the instance is never handed out
        vms := vms[..|vms| - 1];
        return Err(TypeError);
      }
      assert [] + KeysOf(View(), data) == KeysOf(View(), data);
      r := Ok(|vms| - 1);
    }

    /** An object literal `{k1: v1, ...}`: a fresh record holding its fields
        as plain data properties. */
    method AllocRecord(fields: seq<(string, Value)>) returns (o: ObjId)
      requires Valid()
      modifies this`heap, this`nextObj
      ensures o == old(nextObj) && o !in old(heap) && nextObj == o + 1
      ensures heap == old(heap)[o := RecordOf(fields)]
      ensures Valid() && View() == old(View())[o := Literal(fields)]
    {
      o := nextObj;
      RecordOfView(fields, o, cells);
      AllocView(heap, nextObj, cells, nextCell, RecordOf(fields));
      heap := heap[o := RecordOf(fields)];
      nextObj := nextObj + 1;
    }

    /** An array literal: `observe` leaves it alone and its elements are not
        modelled. */
    method AllocArray() returns (o: ObjId)
      requires Valid()
      modifies this`heap, this`nextObj
      ensures o == old(nextObj) && o !in old(heap) && nextObj == o + 1
      ensures heap == old(heap)[o := ArrayObj]
      ensures Valid() && View() == old(View())[o := ArrayView]
    {
      o := nextObj;
      AllocView(heap, nextObj, cells, nextCell, ArrayObj);
      heap := heap[o := ArrayObj];
      nextObj := nextObj + 1;
    }
  }
}
