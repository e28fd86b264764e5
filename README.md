# kvue reactive core in Dafny

This project models the dependency-tracking engine of `kvue/kvue.js`. It has three parts:

- **Reactive properties.** `observe` walks a data object and, for every own key, has `defineReactive` replace the field with a getter/setter pair. The pair closes over the current value `val` and a fresh `Dep`.
- **Collecting subscribers.** A getter called while the global `Dep.target` is set appends that watcher to its `Dep`. A setter called with a value that is not `===` the captured one first observes the new value, then stores it, then has the `Dep` call `update()` on every subscriber in order.
- **Proxying.** `proxy` forwards `vm[key]` to `vm.$data[key]`. The `KVue` constructor runs `observe($data)` and then `proxy`.

The model is imperative where the source is:

- `Runtime.Engine` is one object holding the whole running system:
  - the JavaScript heap (records with plain or intercepted slots, and opaque arrays);
  - the table of getter/setter closures (`Cells`). A cell is `(home, val, deps)`: the property it was made for, the captured value, and its `Dep.deps` list;
  - the KVue instances;
  - the `Dep.target` register;
  - a log of the calls made to the watchers' update callbacks.
- Each operation of the source is a method that changes these fields in place, with `while` loops where the source has `forEach`:
  - `Observe` / `DefineReactive`;
  - `Read`, `AddDep`, `Notify`, `Update`;
  - `Setter`, `SetProp`, `Assign`;
  - `NewWatcher`, `Proxy`, `MakeReactive`.

Each method is proved against a specification:

- The recursion of `observe` / `walk` / `defineReactive` is specified by the functions `Reactive.ObserveOn`, `Reactive.WalkOn` and `Reactive.DefineOn`, and the loop in `Runtime.Engine.Observe` is proved to compute them.
- What they mean is proved separately (`Reactive.ObserveOnSpec` and its companions), in terms of the view the getters give of the heap (`HeapView.Graph`):
  - `observe(v)` changes nothing any getter shows;
  - it returns normally exactly when the records reachable from `v` nest within the stack allowance (`HeapView.Fits`);
  - it rebinds every property it reaches (`HeapView.ReachProps`) to a new closure whose `Dep` is empty, and leaves every other property alone.
- The remaining definitions are specification functions with no contract of their own; the lemmas and methods in the table state what they mean:
  - `Reactive.ObserveOn`, `Reactive.WalkOn` and `Reactive.DefineOn` compute `observe`, `walk` and `defineReactive` (kvue/kvue.js:1-8, 28-55);
  - `HeapView.KeysOf` is `Object.keys(vm.$data)` (kvue/kvue.js:59), used by `Runtime.Engine.Proxy` and `Runtime.Engine.MakeReactive`;
  - `HeapView.Locate` and `HeapView.ReadThrough` are the `proxy` accessors (kvue/kvue.js:60-66), described by `HeapView.ProxyForwards`;
  - `Reactive.Registered` is the getter's `Dep.target && dep.addDep(Dep.target)` (kvue/kvue.js:11), described by `Reactive.RegisteredAppends`;
  - `Runtime.PutPlain` is an ordinary data-property write, used by `Runtime.Engine.SetProp`;
  - `HeapView.FitsByKeys`, `HeapView.ReachPropsByKeys` and `Runtime.Engine.CellAt` only unfold definitions for the proofs.
- Watcher calls are stated through `Ledger.Deliveries`: one call per `Dep` entry, in insertion order, each with the value the watcher's key reads at that point.

Two consequences of the source follow from these contracts and are worked through in the verified scenarios of `Scenarios`:

- **Subscriptions are dropped on re-observation.** Assigning an object that reaches an already reactive record re-walks that record and replaces its closures, so the subscribers collected so far are dropped.
- **Some writes are lost.** When the assigned value reaches the very property being assigned (`vm.a = vm.$data`), the property gets a new closure built from its old value. The setter then stores the new value into its own closure, which no getter reaches any more, so the write is lost. The old subscribers are still notified, and they read the old value.

The engine's callers must keep `Dep.target` empty except inside `Runtime.Engine.NewWatcher`. The source relies on the same discipline: the register is set only around the single read in the `Watcher` constructor. Every getter therefore runs untracked during `walk`, `update` and the setters.

## Model

| member | source | states |
|---|---|---|
| JsValues.ObserveSkips | kvue/kvue.js:29-31 | The guard of `observe` lets through exactly the object references; scalars, `null` and `undefined` are returned untouched. |
| HeapView.WriteSame | kvue/kvue.js:15 | Storing into a property the value it already reads leaves every object as it was, so the equality gate loses nothing. |
| HeapView.FitsMonotone | kvue/kvue.js:1-3 | A value that `observe` gets through within a given stack allowance also gets through with any larger one. |
| HeapView.ReachFromMembers | kvue/kvue.js:51-54 | `walk` over keys `ks` converts a property iff it is one of the visited keys or is reached from the value of one of them (both directions). |
| HeapView.ReachFromPrefix | kvue/kvue.js:51-54 | Visiting a prefix of the keys converts a subset of what visiting all of them converts. |
| HeapView.SelfReferenceNeverFits | kvue/kvue.js:1-3 | A record holding a reference to itself can never be observed, whatever the stack: `defineReactive` re-enters `observe` on it at every level. |
| HeapView.ReachClosed | kvue/kvue.js:3 | After a successful `observe(v)`, every record referenced from a converted property has all its own keys converted: no plain nested object survives. |
| HeapView.ProxyForwards | kvue/kvue.js:58-68 | Once `proxy` has installed the keys of `$data`, each of them reaches `vm.$data[key]`, so `vm[key]` reads every own field of `$data`; keys `$data` lacks and all other instances are unaffected. |
| Ledger.DeliveriesInOrder | kvue/kvue.js:251-253 | `notify` makes one call per `deps` entry, in insertion order, and the i-th call goes to `deps[i]` with the value its key reads. |
| Ledger.DeliveriesAppend | kvue/kvue.js:247-253 | Subscribers appended to the list only add calls after the existing ones. |
| Ledger.CallsMatchOccurrences | kvue/kvue.js:247-253 | No deduplication: a watcher is called exactly as many times as it occurs in the list. |
| Reactive.Get | kvue/kvue.js:9-13 | An untracked read of `o[k]` returns what the getter's closure holds, that is, the view's value of the property. |
| Reactive.AddDepTo | kvue/kvue.js:247-249 | `addDep` appends exactly `w` at the end of one `Dep`; its value, home and every other cell are unchanged. |
| Reactive.RegisteredAppends | kvue/kvue.js:11 | A getter grows only its own `Dep`, by exactly `Dep.target`, and only when the register is set; with an empty register nothing changes. |
| Reactive.Bind | kvue/kvue.js:8-24 | `Object.defineProperty` makes `o[k]` name the new closure; the key keeps its place, the other slots of `o` and every other object are unchanged. |
| Reactive.BindWf | kvue/kvue.js:5-8 | Installing a fresh closure keeps every intercepted slot naming a closure made for that very property. |
| Reactive.BindView | kvue/kvue.js:5-13 | Installing a closure that captured `val` shows, through the getters, as the plain assignment `o[k] = val`. |
| Reactive.BindReactivated | kvue/kvue.js:5-8 | One `defineReactive` install rebinds exactly `o[k]`, to a new closure with an empty `Dep`. |
| Reactive.SetValView | kvue/kvue.js:19 | `val = v` shows as `o[k] = v` when the closure is still installed on its property, and is invisible once `observe` has replaced it. |
| Reactive.ObserveOnSpec | kvue/kvue.js:28-35 | `observe(v)` changes no value any getter shows; it returns normally iff `Fits`; it rebinds exactly `ReachProps` (some of them on overflow) to fresh closures with empty `Dep`s and keeps existing closures. |
| Reactive.WalkOnSpec | kvue/kvue.js:51-55 | `walk` over the keys `ks` changes no visible value, completes iff every visited field fits, and rebinds the visited keys and what their values reach. |
| Reactive.WalkOnTurn | kvue/kvue.js:52-54 | One more turn of the `forEach` extends the walk's guarantees from the first keys to one key more. |
| Reactive.WalkOnStep | kvue/kvue.js:52-54 | A turn after completed turns reads `obj[key]`, hands it to `defineReactive`, and keeps the view, since re-installing a property with its own value is invisible. |
| Reactive.WalkOnOverflowed | kvue/kvue.js:52-54 | After an overflow the exception leaves the `forEach`: the walk fails, and only part of its properties are rebound. |
| Reactive.WalkOnStops | kvue/kvue.js:52-54 | Once a turn has overflowed, the remaining keys change nothing. |
| Reactive.DefineOnSpec | kvue/kvue.js:1-25 | `defineReactive(o, k, val)` completes iff `val` fits; it then shows as `o[k] = val` and installs a closure holding `val` with an empty `Dep`; it rebinds what `val` reaches, plus `o[k]` on success. |
| Reactive.DefineInstalls | kvue/kvue.js:5-24 | After `observe(val)` has returned, the new `Dep` and accessor pair add `o[k]` to the rebound properties and write `val` into the view. |
| Runtime.ReactivatedBound | kvue/kvue.js:18-19 | After `observe(v)` in a setter, its closure is still installed iff it was before and its property is not reached from `v`. |
| Runtime.SetterFails | kvue/kvue.js:18 | When `observe(v)` overflows, the setter throws RangeError; the closure keeps its value and nobody is notified. |
| Runtime.SetterDone | kvue/kvue.js:14-23 | Otherwise the closure holds `v`, the property shows `v` unless `observe` replaced the closure, and the log grows by one call per entry of the closure's `Dep`. |
| Runtime.AssignWrites | kvue/kvue.js:14-23 | An assignment that returns normally reads back as the plain assignment, unless `v` leads back to the property assigned, in which case nothing visible changes. |
| Runtime.Engine.Lookup | kvue/kvue.js:61-63 | `host[key]` reads through the proxy accessor to the `$data` property it forwards to. |
| Runtime.Engine.AddDep | kvue/kvue.js:247-249 | The `Dep` of the cell becomes `AddDepTo` of the old table: exactly one entry appended. |
| Runtime.Engine.Read | kvue/kvue.js:9-13 | A read returns the current value, leaves every value unchanged and grows a ledger exactly as `Registered` says (only under a set `Dep.target`). |
| Runtime.Engine.Observe | kvue/kvue.js:28-55 | The loop over `Object.keys(obj)` computes `ObserveOn`: the heap, closures and cell counter end as the specification function says. |
| Runtime.Engine.DefineReactive | kvue/kvue.js:1-24 | Observe `val`, then create the closure and install it, computing `DefineOn`; nothing is installed when `observe` overflows. |
| Runtime.Engine.ObserveTop | kvue/kvue.js:79 | `observe(v)` with the whole stack: no visible value changes, normal return iff `Fits`, and the reached properties are rebound. |
| Runtime.Engine.Update | kvue/kvue.js:236-238 | `update()` appends one call carrying the value `vm[key]` reads now. |
| Runtime.Engine.Notify | kvue/kvue.js:251-253 | The log grows by `Deliveries` of the `Dep` list, in order, and no ledger changes, because the re-reads are untracked. |
| Runtime.Engine.Setter | kvue/kvue.js:14-23 | Equal value: nothing changes. Otherwise observe, store and notify, or throw RangeError with nothing stored; every other existing closure keeps its value and its `Dep`, and only the properties `observe` reached are rebound (`SetOutcome`). |
| Runtime.Engine.SetProp | kvue/kvue.js:14-23 | `obj[key] = v` runs the setter of an intercepted property; any other property of a record becomes a plain data property, with the rest of the heap, every closure and the log unchanged (`PropOutcome`). |
| Runtime.Engine.Assign | kvue/kvue.js:64-66 | `vm[key] = v` through the proxy has exactly the effect of `vm.$data[key] = v`. |
| Runtime.Engine.NewWatcher | kvue/kvue.js:225-234 | Construction leaves `Dep.target` empty, appends the new watcher once to the `Dep` of the property `vm[key]` reaches, and changes no value. |
| Runtime.Engine.Proxy | kvue/kvue.js:58-69 | TypeError on a null or undefined `$data`; otherwise each key of `$data`, in order, becomes a forwarding key of the instance. |
| Runtime.Engine.MakeReactive | kvue/kvue.js:79-82 | `new KVue`: `observe($data)` then `proxy`; RangeError iff `$data` does not fit; TypeError on null or undefined, and then no instance is added; otherwise the new instance forwards every key of `$data`. |
| Scenarios.OneFieldMade | kvue/kvue.js:79-82 | `new KVue({data: {k: v0}})` intercepts `k` with one closure holding `v0` and an empty `Dep`. |
| Scenarios.ScalarAssigned | kvue/kvue.js:14-23 | Assigning a different scalar stores it and calls each subscriber once with it. |
| Scenarios.SelfAssigned | kvue/kvue.js:14-23 | `vm.k = vm.$data` gives `k` a new closure with the old value and no subscribers; the old subscribers are called with the old value. |
| Scenarios.CounterScenario | kvue/kvue.js:224-238 | Counter `0`, watcher, then `= 5`, `= 5`, `= 6`: the watcher is called exactly with 5, then 6. |
| Scenarios.LostWriteScenario | kvue/kvue.js:14-23 | After `vm.a = vm.$data`, `vm.a` still reads the old value and the watcher is gone, so a later change calls nobody. |

## Left out

- The `Compile` class (kvue/kvue.js:89-221) and the constructor's `new Compile` (kvue/kvue.js:85): DOM traversal and DOM updates. The `$options` and `$methods` fields (kvue/kvue.js:74, 76) are stored but never read by the core.
- `console.log` in the setter (kvue/kvue.js:16): output with no effect on state.
- Floating point: numbers are integers, so `===` is structural equality on scalars and identity on objects. `NaN` and `-0` are not modelled.
- Update callbacks are opaque functions. A call is recorded in the log as `(watcher, value)`. The model does not cover callbacks that throw and so cut a `notify` short, or callbacks that read, write or construct watchers (reentrancy).
- Runtime.Engine.NewWatcher: requires an empty `Dep.target`, so a watcher constructed inside another watcher's registration read is not modelled.
- Runtime.Engine.Observe: requires an empty `Dep.target`. The getters that `walk`'s `obj[key]` runs are modelled as untracked reads. In the source they could register a watcher only if `walk` ran inside a watcher's registration read, which no caller does.
- The call stack is an allowance of `depthLimit` nested `observe` levels. Exhausting it throws RangeError, which stands for the engine's stack overflow on cyclic or very deep data. The engine's real stack size is not modelled.
- Arrays (the `// todo` branch, kvue/kvue.js:43-44) are opaque objects: `observe` leaves them alone and their elements are not modelled.
- Runtime.Engine.SetProp: an assignment to a property of an array changes nothing in the model.
- Runtime.Engine.Proxy: when `$data` is a string or an array, `Object.keys` would yield index keys; the model gives no keys, so nothing is proxied.
- Runtime.Engine.Assign: an assignment to a key of a KVue instance that `proxy` did not install would create an own property of the instance. Instance own properties are not modelled: the assignment changes nothing, and such keys read as undefined. This includes `vm.$data = x`: in the source the accessors read `vm.$data` on every access (kvue/kvue.js:62, 65), so that assignment would re-target every proxied key of the instance to `x`. In the model `$data` is fixed when the instance is made, and the proxied keys keep forwarding to the original object.
- Objects other than plain records and arrays (functions, dates and the like), prototype chains, symbol keys, non-enumerable properties and property attributes are not modelled.
- Object identity and creation: objects are numbered in creation order (`AllocRecord`, `AllocArray`), and `Dep`s and closures are table entries addressed by number.
- `defineReactive` makes a new closure and a new `Dep` every time `observe` walks an object, also when the object was made reactive before. Nothing carries the old subscribers over to the new `Dep`, so re-observation drops them (stated by `Reactive.ObserveOnSpec` and `Scenarios.SelfAssigned`). This is how kvue.js behaves, and the model keeps it.
- HeapView.Locate: a `data` object with a key named `$data` is not modelled faithfully. `proxy` (kvue/kvue.js:59-67) then replaces the instance's own `$data` property (kvue/kvue.js:75) with an accessor whose getter reads `vm.$data[key]`, that is, itself. Every later read of a proxied key then recurses until the stack overflows. The model keeps `$data` as a separate field of `Vm`, so `vm.a` still reads `$data.a`.
- HeapView.Put, Runtime.PutPlain and Runtime.RecordOf keep every key in insertion order. JavaScript's `Object.keys` lists keys that are array indices (`"0"`, `"17"`) first, in ascending numeric order, and only then the other keys in insertion order. For records with index-like keys, `walk` and `proxy` therefore visit keys in a different order in the model than in the source. This changes which properties are already rebound when an overflow stops the walk. The model is exact for records without such keys.
