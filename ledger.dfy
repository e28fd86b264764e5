/** Subscribers and what a `Dep` delivers to them. */
module Ledger {
  import opened JsValues
  import opened HeapView

  /** A `Watcher`: the receiver and key it reads. `id` stands for the object
      identity of the watcher and for its update callback `updateFn`; two
      constructions never share an id. */
  datatype Watcher = Watcher(id: nat, host: Host, key: string)

  /** One call `updateFn(value)` made by `Watcher.update`. */
  datatype Delivery = Delivery(watcher: Watcher, value: Value)

  /** The calls `notify` makes when its subscriber list is `ws` and every
      watcher re-reads `host[key]` in the state (g, vms): the list is walked
      front to back, one call per entry. */
  ghost function Deliveries(g: Graph, vms: seq<Vm>, ws: seq<Watcher>): seq<Delivery>
  {
    if ws == [] then []
    else
      var w := ws[|ws| - 1];
      Deliveries(g, vms, ws[..|ws| - 1]) + [Delivery(w, ReadThrough(g, vms, w.host, w.key))]
  }

  /** `notify` updates every subscriber once per entry, in insertion order,
      each with the value its key currently reads as; an entry that occurs
      twice is updated twice. */
  lemma {:induction false} DeliveriesInOrder(g: Graph, vms: seq<Vm>, ws: seq<Watcher>)
    ensures |Deliveries(g, vms, ws)| == |ws|
    ensures forall i | 0 <= i < |ws| ::
              Deliveries(g, vms, ws)[i] == Delivery(ws[i], ReadThrough(g, vms, ws[i].host, ws[i].key))
  {
    if ws != [] {
      DeliveriesInOrder(g, vms, ws[..|ws| - 1]);
    }
  }

  /** Registering more subscribers only adds calls after the existing ones. */
  lemma {:induction false} DeliveriesAppend(g: Graph, vms: seq<Vm>, a: seq<Watcher>, b: seq<Watcher>)
    ensures Deliveries(g, vms, a + b) == Deliveries(g, vms, a) + Deliveries(g, vms, b)
    decreases |b|
  {
    if b != [] {
      var init := b[..|b| - 1];
      assert (a + b)[..|a + b| - 1] == a + init;
      DeliveriesAppend(g, vms, a, init);
    } else {
      assert a + b == a;
    }
  }

  /** How many times `w` occurs in a subscriber list. */
  function Occurrences(ws: seq<Watcher>, w: Watcher): nat
  {
    if ws == [] then 0 else Occurrences(ws[..|ws| - 1], w) + (if ws[|ws| - 1] == w then 1 else 0)
  }

  /** How many calls in `ds` go to `w`. */
  function Calls(ds: seq<Delivery>, w: Watcher): nat
  {
    if ds == [] then 0 else Calls(ds[..|ds| - 1], w) + (if ds[|ds| - 1].watcher == w then 1 else 0)
  }

  /** No deduplication: a watcher is called exactly as many times as it
      occurs in the list. */
  lemma {:induction false} CallsMatchOccurrences(g: Graph, vms: seq<Vm>, ws: seq<Watcher>, w: Watcher)
    ensures Calls(Deliveries(g, vms, ws), w) == Occurrences(ws, w)
  {
    if ws != [] {
      var d := Deliveries(g, vms, ws);
      CallsMatchOccurrences(g, vms, ws[..|ws| - 1], w);
      assert d[..|d| - 1] == Deliveries(g, vms, ws[..|ws| - 1]);
    }
  }
}
