/** Reference-counted values and the shared append storage of src/vm/value.c as functions on
    an explicit heap. `held` counts the references owned by code outside the heap (operand
    stacks, locals, native callers); `created` records what each value denoted when it was
    made. No operation reads those two. */
module HeapModel {

  const LIMIT: nat := 0xFFFF_FFFF_FFFF_FFFF / 8
  const BUDGET: nat := 64

  type Id = nat

  /** `Plain` owns an element buffer (array, map, set); `Named` owns fields, payloads or an
      iterated value (record, variant, iterator); `Opaque` is an HTTP resource. A `View` is
      an array that shows the first `count` items of an append storage. */
  datatype Shape =
    | Leaf
    | Plain(items: seq<Id>)
    | Named(items: seq<Id>)
    | Opaque(items: seq<Id>)
    | View(storage: Id, count: nat)
    | Storage(capacity: nat, items: seq<Id>)

  datatype Obj = Obj(refs: nat, shape: Shape)

  datatype Heap = Heap(objs: map<Id, Obj>, held: multiset<Id>, created: map<Id, seq<Id>>)

  /** The ownership edges of an object, including a shared view's hidden suffix. */
  function Children(o: Shape): seq<Id> {
    match o
    case Leaf => []
    case View(s, _) => [s]
    case _ => o.items
  }

  predicate IsStorage(h: Heap, s: Id) {
    s in h.objs && h.objs[s].shape.Storage?
  }

  /** What a value denotes: its visible elements. */
  function Items(h: Heap, v: Id): seq<Id>
    requires v in h.objs
  {
    match h.objs[v].shape
    case Leaf => []
    case View(s, n) =>
      if IsStorage(h, s) && n <= |h.objs[s].shape.items| then h.objs[s].shape.items[..n] else []
    case _ => h.objs[v].shape.items
  }

  // ----- Reference counting -----

  /** `retain`: the caller takes one more reference. */
  function Retain(h: Heap, v: Id): (r: Heap)
    ensures r.objs.Keys == h.objs.Keys
  {
    if v !in h.objs then h
    else h.(objs := h.objs[v := h.objs[v].(refs := h.objs[v].refs + 1)], held := h.held + multiset{v})
  }

  function RetainAll(h: Heap, items: seq<Id>): (r: Heap)
    ensures r.objs.Keys == h.objs.Keys
    decreases |items|
  {
    if items == [] then h else RetainAll(Retain(h, items[0]), items[1..])
  }

  /** The heap once value `v`, whose last reference is gone, has been taken out. What it
      owned is now owned by the caller and listed second, to be released next. */
  function Unlink(h: Heap, v: Id): (r: (Heap, seq<Id>))
    requires v in h.objs
    ensures r.0.objs.Keys < h.objs.Keys
  {
    var o := h.objs[v].shape;
    var h1 := h.(objs := h.objs - {v}, held := h.held - multiset{v}, created := h.created - {v});
    assert v !in h1.objs;
    match o
    case Leaf => (h1, [])
    case View(s, n) => if IsStorage(h1, s) then UnlinkView(h1, s, n) else (h1, [])
    case _ => (h1.(held := h1.held + multiset(o.items)), o.items)
  }

  /** Storage `s` loses the view that showed `n` of its items. */
  function UnlinkView(h: Heap, s: Id, n: nat): (r: (Heap, seq<Id>))
    requires IsStorage(h, s)
    ensures r.0.objs.Keys <= h.objs.Keys
  {
    var Obj(refs, Storage(capacity, items)) := h.objs[s];
    if refs <= 1 then
      (h.(objs := h.objs - {s}, held := h.held + multiset(items)), items)
    else if n == |items| && n > 0 then
      (h.(objs := h.objs[s := Obj(refs - 1, Storage(capacity, items[..n - 1]))],
          held := h.held + multiset{items[n - 1]}), [items[n - 1]])
    else (h.(objs := h.objs[s := Obj(refs - 1, Storage(capacity, items))]), [])
  }

  /** `release`: gives up one reference of `v` held by the caller. */
  function Release(h: Heap, v: Id): (r: Heap)
    ensures r.objs.Keys <= h.objs.Keys
    decreases h.objs.Keys, 0
  {
    if v !in h.objs then h
    else if h.objs[v].refs > 1 then
      h.(objs := h.objs[v := Obj(h.objs[v].refs - 1, h.objs[v].shape)], held := h.held - multiset{v})
    else
      var (h1, owed) := Unlink(h, v);
      ReleaseAll(h1, owed)
  }

  function ReleaseAll(h: Heap, items: seq<Id>): (r: Heap)
    ensures r.objs.Keys <= h.objs.Keys
    decreases h.objs.Keys, 1 + |items|
  {
    if items == [] then h
    else ReleaseAll(Release(h, items[0]), items[1..])
  }

  // ----- Construction -----

  /** Puts a new object in place; the references to its children pass from the caller to it. */
  function Install(h: Heap, id: Id, o: Shape): Heap {
    h.(objs := h.objs[id := Obj(1, o)], held := h.held - multiset(Children(o)))
  }

  /** `value_new`, `value_sequence`, `named_value`: a value that retains its children. */
  function NewValue(h: Heap, id: Id, o: Shape): Heap {
    var h1 := Install(RetainAll(h, Children(o)), id, o);
    h1.(held := h1.held + multiset{id}, created := h1.created[id := Children(o)])
  }

  // ----- Appending -----

  /** `append_independent`: can sharing be allowed? Follows ownership edges from `item` and
      gives up when it meets `target` or has used the budget. */
  function Independent(h: Heap, item: Id, target: Id, budget: nat): (r: (bool, nat))
    ensures r.1 <= budget
    decreases budget, 0
  {
    if budget == 0 || item !in h.objs then (false, budget)
    else
      var b := budget - 1;
      match h.objs[item].shape
      case Leaf => (true, b)
      case Plain(items) => IndependentAll(h, items, target, b)
      case Named(items) => IndependentAll(h, items, target, b)
      case View(s, _) =>
        if s == target || !IsStorage(h, s) then (false, b)
        else IndependentAll(h, h.objs[s].shape.items, target, b)
      case _ => (false, b)
  }

  function IndependentAll(h: Heap, items: seq<Id>, target: Id, budget: nat): (r: (bool, nat))
    ensures r.1 <= budget
    decreases budget, 1 + |items|
  {
    if items == [] then (true, budget)
    else
      var (ok, b) := Independent(h, items[0], target, budget);
      if ok then IndependentAll(h, items[1..], target, b) else (false, b)
  }

  predicate IsArray(h: Heap, a: Id) {
    a in h.objs && (h.objs[a].shape.Plain? || h.objs[a].shape.View?)
  }

  /** May the append extend the array's own storage? */
  predicate CanShare(h: Heap, a: Id, item: Id) {
    && IsArray(h, a) && h.objs[a].shape.View?
    && var View(s, n) := h.objs[a].shape;
       && IsStorage(h, s) && h.objs[s].refs == 1
       && n < h.objs[s].shape.capacity
       && Independent(h, item, s, BUDGET).0
  }

  /** The sharing path: storage `s`, of which the array shows `n` items, grows by one item
      and gains a view. */
  function AppendShared(h: Heap, a: Id, item: Id, id: Id): Heap
    requires CanShare(h, a, item)
  {
    var View(s, n) := h.objs[a].shape;
    var Obj(refs, Storage(capacity, items)) := h.objs[s];
    var objs := Retain(h, item).objs;
    h.(objs := objs[s := Obj(refs + 1, Storage(capacity, Items(h, a) + [item]))][id := Obj(1, View(s, n + 1))],
       held := h.held + multiset{id},
       created := h.created[id := Items(h, a) + [item]])
  }

  function Capacity(count: nat): nat {
    if count < 8 then 8 else if count <= LIMIT / 2 then count * 2 else LIMIT
  }

  /** The copying path: a fresh storage, shown by a fresh view. */
  function AppendCopied(h: Heap, a: Id, item: Id, id: Id, sid: Id): Heap
    requires a in h.objs
  {
    var items := Items(h, a) + [item];
    var h1 := Install(RetainAll(h, items), sid, Storage(Capacity(|items| - 1), items));
    h1.(objs := h1.objs[id := Obj(1, View(sid, |items|))], held := h1.held + multiset{id},
        created := h1.created[id := items])
  }

  /** `value_array_append`; `id` and `sid` name the objects it may allocate. An array at the
      size limit is refused and the heap stays as it is. */
  function Append(h: Heap, a: Id, item: Id, id: Id, sid: Id): (Heap, bool)
    requires IsArray(h, a)
  {
    if |Items(h, a)| >= LIMIT then (h, false)
    else if CanShare(h, a, item) then (AppendShared(h, a, item, id), true)
    else (AppendCopied(h, a, item, id, sid), true)
  }
}
