/** The heap as its getters show it: for every object, its own keys in
    insertion order (the `Object.keys` order of keys that are not array
    indices) and the value each key reads as. The engine's
    operations are specified against this view; the recursion of `observe`
    is described here by the set of properties it converts. */
module HeapView {
  import opened JsValues

  /** One object seen through its getters. Arrays are opaque: `observe`
      installs nothing on them and their elements are not modelled. */
  datatype ObjView = ArrayView | RecordView(keys: seq<string>, vals: map<string, Value>)

  type Graph = map<ObjId, ObjView>

  /** A KVue instance: its `$data` and the keys `proxy` defined on it, in order. */
  datatype Vm = Vm(data: Value, proxied: seq<string>)

  /** The receiver of a property access: a KVue instance (by creation index)
      or a plain object. */
  datatype Host = VmHost(vm: nat) | ObjHost(obj: ObjId)

  /** A property of a particular object. */
  type Prop = (ObjId, string)

  /** Keys are distinct and are exactly the keys that hold a value. */
  ghost predicate WfView(ov: ObjView)
  {
    ov.RecordView? ==>
      && (forall i, j | 0 <= i < j < |ov.keys| :: ov.keys[i] != ov.keys[j])
      && (forall k :: k in ov.vals <==> k in ov.keys)
  }

  ghost predicate WfGraph(g: Graph)
  {
    forall o | o in g :: WfView(g[o])
  }

  /** The object whose own property an access `host[key]` reaches. On a KVue
      instance only the keys installed by `proxy` reach anything: they forward
      to `vm.$data[key]`. */
  function Locate(vms: seq<Vm>, host: Host, key: string): Option<ObjId>
  {
    match host
    case ObjHost(o) => Some(o)
    case VmHost(i) =>
      if i < |vms| && key in vms[i].proxied && vms[i].data.Ref? then Some(vms[i].data.id) else None
  }

  /** `o[key]` for an own property; anything else reads as undefined. */
  function ReadAt(g: Graph, o: ObjId, key: string): Value
  {
    if o in g && g[o].RecordView? && key in g[o].vals then g[o].vals[key] else Undefined
  }

  /** `host[key]`, going through the proxy when the host is a KVue instance. */
  function ReadThrough(g: Graph, vms: seq<Vm>, host: Host, key: string): Value
  {
    match Locate(vms, host, key)
    case None => Undefined
    case Some(o) => ReadAt(g, o, key)
  }

  /** `ov[key] = v` on a record: an existing key keeps its position, a new
      key is appended to the key order. */
  function Put(ov: ObjView, key: string, v: Value): (ov': ObjView)
    requires ov.RecordView?
    ensures ov'.RecordView? && ov'.vals == ov.vals[key := v]
    ensures key in ov.vals ==> ov'.keys == ov.keys
    ensures key !in ov.vals ==> ov'.keys == ov.keys + [key]
  {
    RecordView(if key in ov.vals then ov.keys else ov.keys + [key], ov.vals[key := v])
  }

  /** The view after a plain assignment `o[key] = v`. */
  function WriteAt(g: Graph, o: ObjId, key: string, v: Value): (g': Graph)
    ensures g'.Keys == g.Keys
    ensures forall p | p in g && p != o :: g'[p] == g[p]
    ensures o in g && g[o].RecordView? ==> ReadAt(g', o, key) == v
    ensures forall k | k != key :: ReadAt(g', o, k) == ReadAt(g, o, k)
  {
    if o in g && g[o].RecordView? then g[o := Put(g[o], key, v)] else g
  }

  /** An object literal `{k1: v1, k2: v2, ...}`: the fields are stored left
      to right, so a repeated key keeps its first position and its last value. */
  function Literal(fields: seq<(string, Value)>): (ov: ObjView)
    ensures ov.RecordView? && WfView(ov)
    ensures forall k :: k in ov.vals <==> exists i :: 0 <= i < |fields| && fields[i].0 == k
  {
    if fields == [] then RecordView([], map[])
    else
      var ov := Literal(fields[..|fields| - 1]);
      var f := fields[|fields| - 1];
      assert forall i | 0 <= i < |fields| - 1 :: fields[..|fields| - 1][i] == fields[i];
      Put(ov, f.0, f.1)
  }

  /** `Object.keys(v)` for the values `proxy` can walk: the keys of a record,
      none for anything else that is not null or undefined. */
  function KeysOf(g: Graph, v: Value): seq<string>
  {
    if v.Ref? && v.id in g && g[v.id].RecordView? then g[v.id].keys else []
  }

  /** Assigning a property the value it already holds changes nothing. */
  lemma WriteSame(g: Graph, o: ObjId, key: string)
    requires o in g && g[o].RecordView? && key in g[o].vals
    ensures WriteAt(g, o, key, ReadAt(g, o, key)) == g
  {
    assert g[o].vals[key := g[o].vals[key]] == g[o].vals;
  }

  /** `observe(v)` returns without overflowing the call stack when it is given
      `n` nested levels of records: every record reached needs one level. */
  ghost predicate Fits(g: Graph, v: Value, n: nat)
    decreases n
  {
    v.Ref? && v.id in g && g[v.id].RecordView? ==>
      n > 0 && forall k | k in g[v.id].vals :: Fits(g, g[v.id].vals[k], n - 1)
  }

  /** A value that `observe` gets through within `n` levels of stack also
      gets through with any larger stack. */
  lemma {:induction false} FitsMonotone(g: Graph, v: Value, n: nat, n': nat)
    requires n <= n' && Fits(g, v, n)
    ensures Fits(g, v, n')
    decreases n
  {
    if v.Ref? && v.id in g && g[v.id].RecordView? {
      forall k | k in g[v.id].vals ensures Fits(g, g[v.id].vals[k], n' - 1) {
        FitsMonotone(g, g[v.id].vals[k], n - 1, n' - 1);
      }
    }
  }

  /** The properties `observe(v)` turns into cells when given `n` levels:
      every key of the record `v` points to, and, recursively, of the records
      its fields point to, visited in key order. */
  ghost function ReachProps(g: Graph, v: Value, n: nat): set<Prop>
    decreases n, 0
  {
    if v.Ref? && v.id in g && g[v.id].RecordView? && n > 0
       && (forall k | k in g[v.id].keys :: k in g[v.id].vals)
    then ReachFrom(g, v.id, g[v.id].keys, n - 1)
    else {}
  }

  /** The properties `walk` converts when it visits the keys `ks` of record
      `o`, each field's value getting `m` levels. */
  ghost function ReachFrom(g: Graph, o: ObjId, ks: seq<string>, m: nat): set<Prop>
    requires o in g && g[o].RecordView? && forall k | k in ks :: k in g[o].vals
    decreases m, |ks|
  {
    if ks == [] then {}
    else
      var last := ks[|ks| - 1];
      ReachFrom(g, o, ks[..|ks| - 1], m) + {(o, last)} + ReachProps(g, g[o].vals[last], m)
  }

  /** What `walk` over `ks` converts: the visited keys themselves and
      whatever the recursion reaches from each of their values. */
  lemma {:induction false} ReachFromMembers(g: Graph, o: ObjId, ks: seq<string>, m: nat, p: Prop)
    requires o in g && g[o].RecordView? && forall k | k in ks :: k in g[o].vals
    ensures p in ReachFrom(g, o, ks, m) <==>
              (p.0 == o && p.1 in ks) || exists k :: k in ks && p in ReachProps(g, g[o].vals[k], m)
    decreases |ks|
  {
    if ks != [] {
      var init, last := ks[..|ks| - 1], ks[|ks| - 1];
      assert ks == init + [last];
      ReachFromMembers(g, o, init, m, p);
      if p in ReachProps(g, g[o].vals[last], m) {
        assert last in ks;
      }
      if exists k :: k in ks && p in ReachProps(g, g[o].vals[k], m) {
        var k :| k in ks && p in ReachProps(g, g[o].vals[k], m);
        if k != last {
          assert k in init;
        }
      }
    }
  }

  /** Visiting a prefix of the keys converts a subset of what visiting all
      of them converts. */
  lemma ReachFromPrefix(g: Graph, o: ObjId, ks: seq<string>, i: nat, m: nat)
    requires o in g && g[o].RecordView? && forall k | k in ks :: k in g[o].vals
    requires i <= |ks|
    ensures ReachFrom(g, o, ks[..i], m) <= ReachFrom(g, o, ks, m)
  {
    forall p | p in ReachFrom(g, o, ks[..i], m)
      ensures p in ReachFrom(g, o, ks, m)
    {
      ReachFromMembers(g, o, ks[..i], m, p);
      ReachFromMembers(g, o, ks, m, p);
      if !(p.0 == o && p.1 in ks[..i]) {
        var k :| k in ks[..i] && p in ReachProps(g, g[o].vals[k], m);
        assert k in ks;
      }
    }
  }

  /** On a record, `Fits` can be checked key by key over the key list. */
  lemma FitsByKeys(g: Graph, o: ObjId, n: nat)
    requires o in g && g[o].RecordView? && WfView(g[o])
    ensures Fits(g, Ref(o), n) <==>
              n > 0 && forall j | 0 <= j < |g[o].keys| :: Fits(g, g[o].vals[g[o].keys[j]], n - 1)
  {
    if n > 0 && forall j | 0 <= j < |g[o].keys| :: Fits(g, g[o].vals[g[o].keys[j]], n - 1) {
      forall k | k in g[o].vals ensures Fits(g, g[o].vals[k], n - 1) {
        var j :| 0 <= j < |g[o].keys| && g[o].keys[j] == k;
      }
    }
  }

  /** On a record, `ReachProps` unfolds to `ReachFrom` over its key list. */
  lemma ReachPropsByKeys(g: Graph, o: ObjId, n: nat)
    requires o in g && g[o].RecordView? && WfView(g[o]) && n > 0
    ensures forall k | k in g[o].keys :: k in g[o].vals
    ensures ReachProps(g, Ref(o), n) == ReachFrom(g, o, g[o].keys, n - 1)
  {
  }

  /** A record that holds a reference to itself can never be observed: the
      walk re-enters it at every level until the stack is exhausted. */
  lemma {:induction false} SelfReferenceNeverFits(g: Graph, o: ObjId, k: string, n: nat)
    requires o in g && g[o].RecordView? && k in g[o].vals && g[o].vals[k] == Ref(o)
    ensures !Fits(g, Ref(o), n)
  {
    if n > 0 {
      SelfReferenceNeverFits(g, o, k, n - 1);
    }
  }

  /** The converted region is closed under object-valued fields: when
      `observe(v)` succeeds, every record referenced from a converted property
      has all its own keys converted too, so no plain nested object survives. */
  lemma {:induction false} ReachClosed(g: Graph, v: Value, n: nat, p: Prop, q: ObjId)
    requires WfGraph(g) && Fits(g, v, n)
    requires p in ReachProps(g, v, n)
    requires ReadAt(g, p.0, p.1) == Ref(q) && q in g && g[q].RecordView?
    ensures forall k | k in g[q].vals :: (q, k) in ReachProps(g, v, n)
    decreases n
  {
    var o := v.id;
    ReachFromMembers(g, o, g[o].keys, n - 1, p);
    forall k | k in g[q].vals
      ensures (q, k) in ReachProps(g, v, n)
    {
      if p.0 == o && p.1 in g[o].keys {
        // a field of `v` itself: its record is walked one level down
        assert Fits(g, Ref(q), n - 1);
        ReachFromMembers(g, q, g[q].keys, n - 2, (q, k));
        ReachFromMembers(g, o, g[o].keys, n - 1, (q, k));
      } else {
        var j :| j in g[o].keys && p in ReachProps(g, g[o].vals[j], n - 1);
        ReachClosed(g, g[o].vals[j], n - 1, p, q);
        ReachFromMembers(g, o, g[o].keys, n - 1, (q, k));
      }
    }
  }

  /** After `proxy` has installed the keys of `$data` on instance `i`, every
      one of them reaches the same property of `$data`, so the instance reads
      every own field of its `$data`; keys `$data` does not have are as
      before, and no other instance changes. */
  lemma ProxyForwards(g: Graph, vms: seq<Vm>, i: nat)
    requires i < |vms| && vms[i].data.Ref?
    ensures var d := vms[i].data;
            var vms' := vms[i := Vm(d, vms[i].proxied + KeysOf(g, d))];
            && (forall k | k in KeysOf(g, d) :: Locate(vms', VmHost(i), k) == Some(d.id))
            && (d.id in g && g[d.id].RecordView? && WfView(g[d.id]) ==>
                  forall k | k in g[d.id].vals :: ReadThrough(g, vms', VmHost(i), k) == g[d.id].vals[k])
            && (forall k | k !in KeysOf(g, d) :: Locate(vms', VmHost(i), k) == Locate(vms, VmHost(i), k))
            && (forall j, k | j != i :: Locate(vms', VmHost(j), k) == Locate(vms, VmHost(j), k))
  {
    var d := vms[i].data;
    var vms' := vms[i := Vm(d, vms[i].proxied + KeysOf(g, d))];
    if d.id in g && g[d.id].RecordView? && WfView(g[d.id]) {
      forall k | k in g[d.id].vals ensures ReadThrough(g, vms', VmHost(i), k) == g[d.id].vals[k] {
        assert k in KeysOf(g, d);
      }
    }
  }
}
