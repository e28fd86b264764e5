/** Whole runs of the engine on small programs: a page whose `data` is a
    record `{k: v0}` with one scalar field, one watcher on `vm[k]`, and
    assignments through the instance. */
module Scenarios {
  import opened JsValues
  import opened HeapView
  import opened Ledger
  import opened Reactive
  import opened Runtime

  /** The one-field record before `observe`. */
  function Plain1(k: string, v: Value): Obj
  {
    RecordObj([k], map[k := Plain(v)])
  }

  /** The one-field record with its key intercepted by cell `id`. */
  function Live1(k: string, id: CellId): Obj
  {
    RecordObj([k], map[k := Live(id)])
  }

  /** After `new KVue({data: {k: ...}})`: one instance whose `$data` is
      record `d`, its only key intercepted by cell `id` holding `val` with
      subscribers `deps`. */
  ghost predicate OneFieldAt(e: Engine, d: ObjId, k: string, id: CellId, val: Value, deps: seq<Watcher>)
    reads e
  {
    && e.Valid() && e.target.None? && e.depthLimit == 8
    && e.vms == [Vm(Ref(d), [k])]
    && e.heap == map[d := Live1(k, id)]
    && id in e.cells && e.cells[id] == Cell((d, k), val, deps)
  }

  /** In that state `vm[k]` reads the cell's value. */
  lemma OneFieldReads(e: Engine, d: ObjId, k: string, id: CellId, val: Value, deps: seq<Watcher>)
    requires OneFieldAt(e, d, k, id, val, deps)
    ensures e.Lookup(VmHost(0), k) == val
  {
  }

  /** The getters of the one-field record show its cell's value. */
  lemma OneFieldView(h: Heap, c: Cells, d: ObjId, k: string, id: CellId)
    requires h == map[d := Live1(k, id)] && id in c
    ensures ViewOf(h, c) == map[d := RecordView([k], map[k := c[id].val])]
  {
    assert ViewOf(h, c)[d] == RecordView([k], map[k := c[id].val]);
  }

  /** `observe` on `{k: v0}` with a scalar `v0` converts its one key and fits
      in the stack. */
  lemma OneFieldObserved(g: Graph, d: ObjId, k: string, v0: Value)
    requires !v0.Ref? && d in g && g[d] == RecordView([k], map[k := v0])
    ensures Fits(g, Ref(d), 8)
    ensures ReachProps(g, Ref(d), 8) == {(d, k)}
  {
    assert ReachProps(g, v0, 7) == {};
    assert [k][..0] == [];
  }

  /** What `observe` followed by `proxy` leave for `{k: v0}`: the key is
      intercepted by a cell holding `v0` with no subscribers. */
  lemma OneFieldMade(h0: Heap, nextObj: nat, h1: Heap, c1: Cells, n1: nat, d: ObjId, k: string, v0: Value)
    requires !v0.Ref? && h0 == map[d := Plain1(k, v0)]
    requires WfHeap(h1, nextObj, c1, n1) && ViewOf(h1, c1) == ViewOf(h0, map[])
    requires Reactivated(h0, 0, h1, c1, ReachProps(ViewOf(h0, map[]), Ref(d), 8), true)
    ensures d in h1 && h1[d].RecordObj? && k in h1[d].slots && h1[d].slots[k].Live?
    ensures var id := h1[d].slots[k].cell;
            && h1 == map[d := Live1(k, id)]
            && id in c1 && c1[id] == Cell((d, k), v0, [])
  {
    var g := ViewOf(h0, map[]);
    assert g[d] == RecordView([k], map[k := v0]);
    OneFieldObserved(g, d, k, v0);
    assert SameShape(h0[d], h1[d]);
    assert h1[d].slots == map[k := h1[d].slots[k]];
    var id := h1[d].slots[k].cell;
    assert WfObj(d, h1[d], c1);
    assert ViewOf(h1, c1)[d].vals[k] == g[d].vals[k];
  }

  /** A fresh engine holding the one record `{k: v0}`. */
  method OneFieldAlloc(k: string, v0: Value) returns (e: Engine, d: ObjId)
    ensures fresh(e) && e.Valid() && e.depthLimit == 8 && e.target.None?
    ensures e.heap == map[d := Plain1(k, v0)]
    ensures e.cells == map[] && e.nextCell == 0 && e.vms == [] && e.log == [] && e.nextWatcher == 0
  {
    e := new Engine(8);
    d := e.AllocRecord([(k, v0)]);
    assert RecordOf([(k, v0)]) == Plain1(k, v0);
  }

  /** `new KVue({data: {k: v0}})`. */
  method OneFieldSetup(k: string, v0: Value) returns (e: Engine, d: ObjId, id: CellId)
    requires !v0.Ref?
    ensures fresh(e) && e.nextWatcher == 0
    ensures OneFieldAt(e, d, k, id, v0, []) && e.log == []
  {
    e, d := OneFieldAlloc(k, v0);
    ghost var h0 := e.heap;
    assert ViewOf(h0, map[])[d] == RecordView([k], map[k := v0]);
    OneFieldObserved(ViewOf(h0, map[]), d, k, v0);
    var r := e.MakeReactive(Ref(d));
    OneFieldMade(h0, e.nextObj, e.heap, e.cells, e.nextCell, d, k, v0);
    id := e.heap[d].slots[k].cell;
  }

  /** `new Watcher(vm, k, fn)` subscribes the watcher to the cell. */
  method OneFieldSubscribe(e: Engine, d: ObjId, k: string, id: CellId, v0: Value) returns (w: Watcher)
    requires OneFieldAt(e, d, k, id, v0, [])
    modifies e
    ensures w == Watcher(old(e.nextWatcher), VmHost(0), k)
    ensures OneFieldAt(e, d, k, id, v0, [w]) && e.log == old(e.log)
  {
    assert e.CellAt(VmHost(0), k) == Some(id);
    w := e.NewWatcher(VmHost(0), k);
  }

  /** The subscriber list of the scenarios: empty, or one watcher on
      `vm[k]`. */
  ghost predicate AtMostOne(ws: seq<Watcher>, k: string)
  {
    ws == [] || (|ws| == 1 && ws[0].host == VmHost(0) && ws[0].key == k)
  }

  /** The calls `notify` makes on such a list when `vm[k]` reads `v`. */
  function CallsWith(ws: seq<Watcher>, v: Value): seq<Delivery>
  {
    if ws == [] then [] else [Delivery(ws[0], v)]
  }

  /** `notify` on at most one watcher of `vm[k]` calls it with whatever
      `vm[k]` reads. */
  lemma NotifyOne(g: Graph, d: ObjId, k: string, ws: seq<Watcher>)
    requires AtMostOne(ws, k)
    ensures Deliveries(g, [Vm(Ref(d), [k])], ws) == CallsWith(ws, ReadAt(g, d, k))
  {
    if ws != [] {
      assert ws[..0] == [];
    }
  }

  /** The setter of `k` handed a different scalar: nothing to observe, the
      cell takes the new value and its subscribers read it. */
  lemma ScalarAssigned(h0: Heap, c0: Cells, n0: nat, log0: seq<Delivery>, h: Heap, c: Cells, log: seq<Delivery>,
                       vms: seq<Vm>, d: ObjId, k: string, id: CellId, v0: Value, v: Value, ws: seq<Watcher>, r: Result<()>)
    requires h0 == map[d := Live1(k, id)] && !v.Ref? && v != v0
    requires id in c0 && c0[id] == Cell((d, k), v0, ws)
    requires vms == [Vm(Ref(d), [k])] && AtMostOne(ws, k)
    requires PropOutcome(h0, c0, n0, log0, h, c, log, vms, 8, d, k, v, r)
    ensures r.Ok? && h == h0
    ensures id in c && c[id] == Cell((d, k), v, ws)
    ensures log == log0 + CallsWith(ws, v)
  {
    var g0 := ViewOf(h0, c0);
    OneFieldView(h0, c0, d, k, id);
    assert ReachProps(g0, v, 8) == {} && Fits(g0, v, 8);
    assert SetOutcome(h0, c0, n0, log0, h, c, log, vms, 8, id, v, r);
    assert SameShape(h0[d], h[d]);
    assert h[d].slots == map[k := Live(id)];
    assert h[d] == h0[d];
    var g := ViewOf(h, c);
    assert ReadAt(g, d, k) == v;
    NotifyOne(g, d, k, ws);
  }

  /** `vm[k] = v` with a different scalar calls the subscribers of `k`, with
      the new value. */
  method ScalarAssign(e: Engine, d: ObjId, k: string, id: CellId, v0: Value, v: Value, ws: seq<Watcher>)
    requires OneFieldAt(e, d, k, id, v0, ws) && AtMostOne(ws, k) && !v.Ref? && v != v0
    modifies e
    ensures OneFieldAt(e, d, k, id, v, ws) && e.log == old(e.log) + CallsWith(ws, v)
  {
    ghost var h0, c0, n0, log0 := e.heap, e.cells, e.nextCell, e.log;
    var a := e.Assign(VmHost(0), k, v);
    ScalarAssigned(h0, c0, n0, log0, e.heap, e.cells, e.log, e.vms, d, k, id, v0, v, ws, a);
  }

  /** Re-observing the one-field record replaces its cell by a fresh one
      with no subscribers. */
  lemma RenewedOnly(h0: Heap, n0: nat, h: Heap, c: Cells, nextObj: nat, n: nat, d: ObjId, k: string, id: CellId)
    requires h0 == map[d := Live1(k, id)] && id < n0
    requires WfHeap(h, nextObj, c, n)
    requires Reactivated(h0, n0, h, c, {(d, k)}, true)
    ensures d in h && h[d].RecordObj? && k in h[d].slots && h[d].slots[k].Live?
    ensures var id' := h[d].slots[k].cell;
            && id' != id && h == map[d := Live1(k, id')]
            && id' in c && c[id'].home == (d, k) && c[id'].deps == []
  {
    assert SameShape(h0[d], h[d]);
    assert h[d].slots == map[k := h[d].slots[k]];
    assert Renewed(h[d].slots[k], c, n0);
    assert WfObj(d, h[d], c);
  }

  /** The setter of `k` handed the record `d` that holds `k`: `observe(d)`
      re-walks `d` and gives `k` a fresh cell, made from the value the old
      getter still returns; the setter then stores `d` in its own, now
      unreachable, closure, and notifies the old subscribers, who read the
      old value. */
  lemma SelfAssigned(h0: Heap, nextObj: nat, c0: Cells, n0: nat, log0: seq<Delivery>, h: Heap, c: Cells, n: nat, log: seq<Delivery>,
                     vms: seq<Vm>, d: ObjId, k: string, id: CellId, v0: Value, ws: seq<Watcher>, r: Result<()>)
    requires WfHeap(h0, nextObj, c0, n0) && WfHeap(h, nextObj, c, n)
    requires h0 == map[d := Live1(k, id)] && !v0.Ref?
    requires id in c0 && c0[id] == Cell((d, k), v0, ws)
    requires vms == [Vm(Ref(d), [k])] && AtMostOne(ws, k)
    requires PropOutcome(h0, c0, n0, log0, h, c, log, vms, 8, d, k, Ref(d), r)
    ensures r.Ok? && d in h && h[d].RecordObj? && k in h[d].slots && h[d].slots[k].Live?
    ensures var id' := h[d].slots[k].cell;
            && id' != id && h == map[d := Live1(k, id')]
            && id' in c && c[id'] == Cell((d, k), v0, [])
            && id in c && c[id].val == Ref(d)
    ensures log == log0 + CallsWith(ws, v0)
  {
    var g0 := ViewOf(h0, c0);
    OneFieldView(h0, c0, d, k, id);
    OneFieldObserved(g0, d, k, v0);
    assert SetOutcome(h0, c0, n0, log0, h, c, log, vms, 8, id, Ref(d), r);
    RenewedOnly(h0, n0, h, c, nextObj, n, d, k, id);
    var id' := h[d].slots[k].cell;
    OneFieldView(h, c, d, k, id');
    assert ViewOf(h, c)[d].vals[k] == v0;
    NotifyOne(ViewOf(h, c), d, k, ws);
  }

  /** `vm[k] = vm.$data`: the assignment is lost and the subscribers are
      dropped. */
  method SelfAssign(e: Engine, d: ObjId, k: string, id: CellId, v0: Value, ws: seq<Watcher>) returns (id': CellId)
    requires OneFieldAt(e, d, k, id, v0, ws) && AtMostOne(ws, k) && !v0.Ref?
    modifies e
    ensures id' != id && OneFieldAt(e, d, k, id', v0, [])
    ensures id in e.cells && e.cells[id].val == Ref(d)
    ensures e.log == old(e.log) + CallsWith(ws, v0)
  {
    ghost var h0, c0, n0, log0 := e.heap, e.cells, e.nextCell, e.log;
    var a := e.Assign(VmHost(0), k, Ref(d));
    SelfAssigned(h0, e.nextObj, c0, n0, log0, e.heap, e.cells, e.nextCell, e.log, e.vms, d, k, id, v0, ws, a);
    id' := e.heap[d].slots[k].cell;
  }

  /** Assigning the value the property already holds calls nobody. */
  method SameAssign(e: Engine, d: ObjId, k: string, id: CellId, v: Value, ws: seq<Watcher>)
    requires OneFieldAt(e, d, k, id, v, ws)
    modifies e
    ensures OneFieldAt(e, d, k, id, v, ws) && e.log == old(e.log)
  {
    var a := e.Assign(VmHost(0), k, v);
  }

  /** The counter page: `data: {count: 0}`, a watcher on `vm.count`, then
      `vm.count = 5`, `vm.count = 5` and `vm.count = 6`. The repeated 5 is
      suppressed by the equality gate; each change calls the watcher once,
      with the new value. */
  method CounterScenario() returns (e: Engine, w: Watcher)
    ensures w == Watcher(0, VmHost(0), "count")
    ensures e.log == [Delivery(w, Num(5)), Delivery(w, Num(6))]
    ensures e.Lookup(VmHost(0), "count") == Num(6)
  {
    var d, id;
    e, d, id := OneFieldSetup("count", Num(0));
    w := OneFieldSubscribe(e, d, "count", id, Num(0));
    ScalarAssign(e, d, "count", id, Num(0), Num(5), [w]);
    SameAssign(e, d, "count", id, Num(5), [w]);
    ScalarAssign(e, d, "count", id, Num(5), Num(6), [w]);
    OneFieldReads(e, d, "count", id, Num(6), [w]);
  }

  /** `data: {a: 1}`, a watcher on `vm.a`, then `vm.a = vm.$data` and
      `vm.a = 2`. The first assignment is lost: `vm.a` still reads 1, and the
      watcher is called with 1. It also drops the watcher, so the second
      assignment, which does take effect, calls nobody. */
  method LostWriteScenario() returns (e: Engine, w: Watcher)
    ensures w == Watcher(0, VmHost(0), "a")
    ensures e.log == [Delivery(w, Num(1))]
    ensures e.Lookup(VmHost(0), "a") == Num(2)
  {
    var d, id;
    e, d, id := OneFieldSetup("a", Num(1));
    w := OneFieldSubscribe(e, d, "a", id, Num(1));
    var id' := SelfAssign(e, d, "a", id, Num(1), [w]);
    OneFieldReads(e, d, "a", id', Num(1), []);
    ScalarAssign(e, d, "a", id', Num(1), Num(2), []);
    OneFieldReads(e, d, "a", id', Num(2), []);
  }
}
