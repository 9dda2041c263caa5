/** Counts, sharing and acyclicity of the value heap, kept by every operation. */
module HeapProofs {
  import opened HeapModel

  // ----- Ownership edges as a multiset -----

  ghost function Owned(o: Obj): multiset<Id> {
    multiset(Children(o.shape))
  }

  ghost function Pick(s: set<Id>): (k: Id)
    requires s != {}
    ensures k in s
  {
    var k :| k in s;
    k
  }

  /** All owning slots of the heap. */
  ghost function Edges(objs: map<Id, Obj>): multiset<Id>
    decreases objs.Keys
  {
    if objs.Keys == {} then multiset{}
    else
      var k := Pick(objs.Keys);
      Owned(objs[k]) + Edges(objs - {k})
  }

  lemma {:induction false} EdgesRemove(objs: map<Id, Obj>, k: Id)
    requires k in objs
    ensures Edges(objs) == Owned(objs[k]) + Edges(objs - {k})
    decreases objs.Keys
  {
    hide Owned;
    var c := Pick(objs.Keys);
    if c != k {
      var rest := objs - {c} - {k};
      EdgesRemove(objs - {c}, k);
      EdgesRemove(objs - {k}, c);
      assert objs - {k} - {c} == rest;
      assert Edges(objs) == Owned(objs[c]) + (Owned(objs[k]) + Edges(rest));
      assert Edges(objs - {k}) == Owned(objs[c]) + Edges(rest);
    }
  }

  lemma EdgesInsert(objs: map<Id, Obj>, k: Id, o: Obj)
    requires k !in objs
    ensures Edges(objs[k := o]) == Owned(o) + Edges(objs)
  {
    EdgesRemove(objs[k := o], k);
    assert objs[k := o] - {k} == objs;
  }

  lemma EdgesUpdate(objs: map<Id, Obj>, k: Id, o: Obj)
    requires k in objs
    ensures Edges(objs[k := o]) + Owned(objs[k]) == Edges(objs) + Owned(o)
  {
    hide Edges;
    EdgesRemove(objs, k);
    EdgesRemove(objs[k := o], k);
    assert objs[k := o] - {k} == objs - {k};
  }

  lemma {:induction false} EdgesOwner(objs: map<Id, Obj>, n: Id) returns (p: Id)
    requires n in Edges(objs)
    ensures p in objs && n in Children(objs[p].shape)
    decreases objs.Keys
  {
    p := Pick(objs.Keys);
    if n !in Children(objs[p].shape) {
      p := EdgesOwner(objs - {p}, n);
    }
  }

  lemma ChildIsEdge(objs: map<Id, Obj>, p: Id, n: Id)
    requires p in objs && n in Children(objs[p].shape)
    ensures n in Edges(objs)
  {
    EdgesRemove(objs, p);
  }

  // ----- The heap invariant -----

  ghost predicate IsValue(h: Heap, v: Id) {
    v in h.objs && !h.objs[v].shape.Storage?
  }

  /** A view owns a storage; everything else owns values. */
  ghost predicate LinkOk(h: Heap, n: Id)
    requires n in h.objs
  {
    var cs := Children(h.objs[n].shape);
    forall i :: 0 <= i < |cs| ==>
      if h.objs[n].shape.View? then IsStorage(h, cs[i]) else IsValue(h, cs[i])
  }

  /** Children are live, storages belong to views only, and every object is referenced. */
  ghost predicate Linked(h: Heap) {
    && (forall n :: n in h.objs ==> LinkOk(h, n) && 0 < h.objs[n].refs)
    && (forall v :: v in h.held ==> v in h.objs)
  }

  lemma ChildIsLive(h: Heap, n: Id, x: Id)
    requires n in h.objs && LinkOk(h, n) && x in Children(h.objs[n].shape)
    ensures if h.objs[n].shape.View? then IsStorage(h, x) else IsValue(h, x)
  {
    var i :| 0 <= i < |Children(h.objs[n].shape)| && Children(h.objs[n].shape)[i] == x;
  }

  /** Outside code holds values, never storages. */
  ghost predicate HeldValues(h: Heap) {
    forall v :: v in h.held ==> IsValue(h, v)
  }

  /** A count is the number of outside holders plus the number of owning slots. */
  ghost predicate Counted(h: Heap) {
    forall n :: n in h.objs ==> h.objs[n].refs == h.held[n] + Edges(h.objs)[n]
  }

  /** A view shows its whole storage, or all but the last item next to a view that does. */
  ghost predicate ViewOk(h: Heap, v: Id) {
    v in h.objs && h.objs[v].shape.View? ==>
      var View(s, n) := h.objs[v].shape;
      && IsStorage(h, s)
      && var full := |h.objs[s].shape.items|;
         0 < n && (n == full || (n + 1 == full && h.objs[s].refs == 2))
  }

  ghost predicate Siblings(h: Heap, v: Id, w: Id) {
    v in h.objs && w in h.objs && v != w && h.objs[v].shape.View? && h.objs[w].shape.View?
    && h.objs[v].shape.storage == h.objs[w].shape.storage
  }

  ghost predicate Shared(h: Heap) {
    && (forall v :: ViewOk(h, v))
    && (forall v, w :: Siblings(h, v, w) ==> h.objs[v].shape.count != h.objs[w].shape.count)
    && (forall s :: IsStorage(h, s) ==>
          h.objs[s].refs <= 2 && 0 < |h.objs[s].shape.items| <= h.objs[s].shape.capacity)
  }

  ghost predicate Ranked(objs: map<Id, Obj>, rank: map<Id, nat>) {
    && objs.Keys <= rank.Keys
    && forall n, i :: n in objs && 0 <= i < |Children(objs[n].shape)| ==>
         var c := Children(objs[n].shape)[i]; c in rank && rank[c] < rank[n]
  }

  ghost predicate Acyclic(objs: map<Id, Obj>) {
    exists rank :: Ranked(objs, rank)
  }

  /** Every value still denotes what it was created with. */
  ghost predicate Faithful(h: Heap) {
    && (forall v :: IsValue(h, v) ==> v in h.created && h.created[v] == Items(h, v))
    && (forall v :: v in h.created ==> IsValue(h, v))
  }

  /** The invariant, also while a storage that lost a view is still in hand. */
  ghost predicate Sound(h: Heap) {
    Linked(h) && Counted(h) && Shared(h) && Acyclic(h.objs) && Faithful(h)
  }

  ghost predicate Inv(h: Heap) {
    Sound(h) && HeldValues(h)
  }

  lemma LinkAt(h: Heap, n: Id)
    requires Sound(h) && n in h.objs
    ensures LinkOk(h, n) && ViewOk(h, n)
  {
  }

  // ----- Changing one count -----

  ghost function Recount(h: Heap, v: Id, refs: nat, held: multiset<Id>): Heap
    requires v in h.objs
  {
    h.(objs := h.objs[v := Obj(refs, h.objs[v].shape)], held := held)
  }

  lemma RecountWorks(h: Heap, v: Id, refs: nat, held: multiset<Id>)
    requires Inv(h) && IsValue(h, v) && refs > 0
    requires refs - held[v] == h.objs[v].refs - h.held[v]
    requires forall n :: n != v ==> held[n] == h.held[n]
    ensures Inv(Recount(h, v, refs, held))
  {
    hide Linked, HeldValues, Shared, Acyclic, Faithful, Edges;
    var r := Recount(h, v, refs, held);
    EdgesRemove(h.objs, v);
    EdgesRemove(r.objs, v);
    assert r.objs - {v} == h.objs - {v};
    forall n | n in r.objs ensures r.objs[n].refs == r.held[n] + Edges(r.objs)[n] {
      assert h.objs[n].refs == h.held[n] + Edges(h.objs)[n];
    }
    RecountKeepsShape(h, v, refs, held);
  }

  /** `r` has the objects of `h` with the same shapes; storages are untouched. */
  ghost predicate SameShapes(h: Heap, r: Heap) {
    && r.objs.Keys == h.objs.Keys && r.created == h.created
    && (forall n :: n in h.objs ==> r.objs[n].shape == h.objs[n].shape)
    && (forall s :: IsStorage(h, s) ==> r.objs[s] == h.objs[s])
  }

  lemma SameShapesLinked(h: Heap, r: Heap, n: Id)
    requires SameShapes(h, r) && n in h.objs && LinkOk(h, n)
    ensures LinkOk(r, n)
  {
  }

  lemma SameShapesShared(h: Heap, r: Heap)
    requires SameShapes(h, r) && Shared(h)
    ensures Shared(r)
  {
    forall w ensures ViewOk(r, w) {
      assert ViewOk(h, w);
    }
    forall w, u | Siblings(r, w, u) ensures r.objs[w].shape.count != r.objs[u].shape.count {
      assert Siblings(h, w, u);
    }
    forall s | IsStorage(r, s) ensures IsStorage(h, s) {
    }
  }

  lemma SameShapesFaithful(h: Heap, r: Heap)
    requires SameShapes(h, r) && Faithful(h)
    ensures Faithful(r)
  {
    forall w | IsValue(r, w) ensures w in r.created && r.created[w] == Items(r, w) {
      assert IsValue(h, w);
    }
  }

  lemma SameShapesAcyclic(h: Heap, r: Heap)
    requires SameShapes(h, r) && Acyclic(h.objs)
    ensures Acyclic(r.objs)
  {
    var rank :| Ranked(h.objs, rank);
    assert Ranked(r.objs, rank);
  }

  lemma RecountKeepsShape(h: Heap, v: Id, refs: nat, held: multiset<Id>)
    requires Inv(h) && IsValue(h, v) && refs > 0
    requires forall n :: n != v ==> held[n] == h.held[n]
    ensures var r := Recount(h, v, refs, held);
            Linked(r) && HeldValues(r) && Shared(r) && Acyclic(r.objs) && Faithful(r)
  {
    hide Counted, Shared, Acyclic, Faithful, LinkOk;
    var r := Recount(h, v, refs, held);
    assert SameShapes(h, r);
    forall n | n in r.objs ensures LinkOk(r, n) && 0 < r.objs[n].refs {
      SameShapesLinked(h, r, n);
    }
    forall n | n in r.held ensures IsValue(r, n) {
      assert n != v ==> n in h.held;
    }
    SameShapesShared(h, r);
    SameShapesFaithful(h, r);
    SameShapesAcyclic(h, r);
  }

  lemma RetainWorks(h: Heap, v: Id)
    requires Inv(h) && IsValue(h, v)
    ensures Inv(Retain(h, v)) && Retain(h, v).held == h.held + multiset{v}
    ensures forall n :: IsValue(Retain(h, v), n) <==> IsValue(h, n)
  {
    hide Inv;
    RecountWorks(h, v, h.objs[v].refs + 1, h.held + multiset{v});
  }

  lemma {:induction false} RetainAllWorks(h: Heap, items: seq<Id>)
    requires Inv(h) && forall i :: 0 <= i < |items| ==> IsValue(h, items[i])
    ensures var r := RetainAll(h, items);
            && Inv(r) && r.held == h.held + multiset(items) && r.created == h.created
            && r.objs.Keys == h.objs.Keys
            && (forall n :: n in h.objs ==> r.objs[n].shape == h.objs[n].shape)
    decreases |items|
  {
    hide Inv;
    if items != [] {
      RetainWorks(h, items[0]);
      var m := Retain(h, items[0]);
      RetainAllWorks(m, items[1..]);
      assert items == [items[0]] + items[1..];
      assert h.held + multiset{items[0]} + multiset(items[1..]) == h.held + multiset(items);
    }
  }

  // ----- Taking an object out -----

  /** Object `v` has a single reference, held outside. */
  ghost predicate Dying(h: Heap, v: Id) {
    Sound(h) && v in h.held && v in h.objs && h.objs[v].refs == 1
  }

  lemma DyingHasNoOwner(h: Heap, v: Id)
    requires Dying(h, v)
    ensures h.held[v] == 1 && Edges(h.objs)[v] == 0
    ensures forall n, i :: n in h.objs && 0 <= i < |Children(h.objs[n].shape)| ==>
              Children(h.objs[n].shape)[i] != v
  {
    hide Linked, Shared, Acyclic, Faithful, Edges;
    forall n, i | n in h.objs && 0 <= i < |Children(h.objs[n].shape)|
      ensures Children(h.objs[n].shape)[i] != v
    {
      ChildIsEdge(h.objs, n, Children(h.objs[n].shape)[i]);
    }
  }

  /** Takes `v` out; what it owned is held outside from now on. */
  ghost function Removed(h: Heap, v: Id): Heap
    requires v in h.objs
  {
    h.(objs := h.objs - {v}, held := h.held - multiset{v} + Owned(h.objs[v]), created := h.created - {v})
  }

  lemma RemovedLinkOk(h: Heap, v: Id, n: Id)
    requires Dying(h, v) && n in h.objs && n != v
    ensures LinkOk(Removed(h, v), n)
  {
    DyingHasNoOwner(h, v);
    hide Counted, Shared, Acyclic, Faithful;
    assert LinkOk(h, n);
  }

  lemma RemovedHeld(h: Heap, v: Id, x: Id)
    requires Dying(h, v) && x in Removed(h, v).held
    ensures x in h.objs && x != v
  {
    hide Counted, Shared, Acyclic, Faithful, Edges;
    DyingHasNoOwner(h, v);
    assert LinkOk(h, v);
    if x in Owned(h.objs[v]) {
      var i :| 0 <= i < |Children(h.objs[v].shape)| && Children(h.objs[v].shape)[i] == x;
    }
  }

  lemma RemovedLinked(h: Heap, v: Id)
    requires Dying(h, v)
    ensures Linked(Removed(h, v))
  {
    hide Counted, Shared, Acyclic, Faithful, LinkOk, Edges;
    var r := Removed(h, v);
    forall x | x in r.held ensures x in r.objs {
      RemovedHeld(h, v, x);
    }
    forall n | n in r.objs ensures LinkOk(r, n) && 0 < r.objs[n].refs {
      RemovedLinkOk(h, v, n);
    }
  }

  lemma RemovedCounted(h: Heap, v: Id)
    requires Dying(h, v)
    ensures Counted(Removed(h, v))
  {
    hide Linked, Shared, Acyclic, Faithful, Edges;
    EdgesRemove(h.objs, v);
  }

  lemma RemovedView(h: Heap, v: Id, w: Id)
    requires Dying(h, v) && w in h.objs && w != v
    ensures h.objs[w].shape.View? ==>
      h.objs[w].shape.storage != v && h.objs[w].shape.storage in Removed(h, v).objs
    ensures ViewOk(Removed(h, v), w) && Items(Removed(h, v), w) == Items(h, w)
  {
    DyingHasNoOwner(h, v);
    assert ViewOk(h, w);
    hide Linked, Counted, Acyclic, Faithful, Edges;
    if h.objs[w].shape.View? {
      assert Children(h.objs[w].shape)[0] != v;
    }
  }

  lemma RemovedShared(h: Heap, v: Id)
    requires Dying(h, v)
    ensures Shared(Removed(h, v)) && Faithful(Removed(h, v))
  {
    hide Linked, Counted, Acyclic, Edges, ViewOk, Items;
    var r := Removed(h, v);
    forall w ensures ViewOk(r, w) {
      if w in r.objs {
        RemovedView(h, v, w);
      } else {
        NoView(r, w);
      }
    }
    forall w, u | Siblings(r, w, u) ensures r.objs[w].shape.count != r.objs[u].shape.count {
      assert Siblings(h, w, u);
    }
    forall s | IsStorage(r, s) ensures IsStorage(h, s) && r.objs[s] == h.objs[s] {
    }
    forall w | IsValue(r, w) ensures w in r.created && r.created[w] == Items(r, w) {
      assert IsValue(h, w);
      RemovedView(h, v, w);
    }
  }

  lemma NoView(h: Heap, w: Id)
    requires w !in h.objs
    ensures ViewOk(h, w)
  {
  }

  lemma RemovedAcyclic(h: Heap, v: Id)
    requires Dying(h, v)
    ensures Acyclic(Removed(h, v).objs)
  {
    hide Linked, Counted, Shared, Faithful;
    var rank :| Ranked(h.objs, rank);
    assert Ranked(Removed(h, v).objs, rank);
  }

  lemma RemovedWorks(h: Heap, v: Id)
    requires Dying(h, v)
    ensures Sound(Removed(h, v))
  {
    hide Linked, Counted, Shared, Faithful, Acyclic;
    RemovedLinked(h, v);
    RemovedCounted(h, v);
    RemovedShared(h, v);
    RemovedAcyclic(h, v);
  }

  // ----- A storage that loses one of its two views -----

  /** Storage `s` has been left by one of its two views, whose reference is in hand. */
  ghost predicate Halved(h: Heap, s: Id) {
    Sound(h) && IsStorage(h, s) && h.objs[s].refs == 2 && h.held[s] == 1
  }

  /** The storage with one view and, if that view is short, without its last item. */
  ghost function Trimmed(h: Heap, s: Id, pop: bool): Heap
    requires IsStorage(h, s) && 0 < |h.objs[s].shape.items|
  {
    var Storage(capacity, items) := h.objs[s].shape;
    var n := if pop then |items| - 1 else |items|;
    h.(objs := h.objs[s := Obj(1, Storage(capacity, items[..n]))],
       held := h.held - multiset{s} + multiset(items[n..]))
  }

  /** The remaining view shows all that stays in the storage. */
  ghost predicate Shows(h: Heap, s: Id, pop: bool)
    requires IsStorage(h, s)
  {
    forall w :: w in h.objs && h.objs[w].shape.View? && h.objs[w].shape.storage == s ==>
      h.objs[w].shape.count + (if pop then 1 else 0) == |h.objs[s].shape.items|
  }

  lemma TrimmedEdges(h: Heap, s: Id, pop: bool, x: Id)
    requires IsStorage(h, s) && 0 < |h.objs[s].shape.items|
    ensures var items := h.objs[s].shape.items;
            var n := if pop then |items| - 1 else |items|;
            Edges(Trimmed(h, s, pop).objs)[x] + multiset(items[n..])[x] == Edges(h.objs)[x]
  {
    hide Edges;
    var r, items := Trimmed(h, s, pop), h.objs[s].shape.items;
    var n := if pop then |items| - 1 else |items|;
    EdgesUpdate(h.objs, s, r.objs[s]);
    assert items == items[..n] + items[n..];
    assert Owned(h.objs[s]) == Owned(r.objs[s]) + multiset(items[n..]);
    assert (Edges(r.objs) + Owned(h.objs[s]))[x] == (Edges(h.objs) + Owned(r.objs[s]))[x];
  }

  lemma TrimmedCounted(h: Heap, s: Id, pop: bool)
    requires Halved(h, s) && 0 < |h.objs[s].shape.items|
    ensures Counted(Trimmed(h, s, pop))
  {
    hide Linked, Shared, Acyclic, Faithful, Edges;
    var r, items := Trimmed(h, s, pop), h.objs[s].shape.items;
    OwnItemsDiffer(h, s);
    forall x | x in r.objs ensures r.objs[x].refs == r.held[x] + Edges(r.objs)[x] {
      assert h.objs[x].refs == h.held[x] + Edges(h.objs)[x];
      TrimmedEdges(h, s, pop, x);
    }
  }

  lemma OwnItemsDiffer(h: Heap, s: Id)
    requires Sound(h) && IsStorage(h, s)
    ensures s !in h.objs[s].shape.items
  {
    assert LinkOk(h, s);
  }

  lemma TrimmedLinkOk(h: Heap, s: Id, pop: bool, n: Id)
    requires Halved(h, s) && 0 < |h.objs[s].shape.items| && n in h.objs
    ensures LinkOk(Trimmed(h, s, pop), n)
  {
    assert LinkOk(h, n);
    hide Counted, Shared, Faithful, Acyclic;
  }

  lemma TrimmedLinked(h: Heap, s: Id, pop: bool)
    requires Halved(h, s) && 0 < |h.objs[s].shape.items|
    ensures Linked(Trimmed(h, s, pop))
  {
    assert IsStorage(h, s);
    hide Halved, LinkOk, Trimmed;
    var r := Trimmed(h, s, pop);
    TrimmedObjects(h, s, pop);
    forall n | n in r.objs ensures LinkOk(r, n) && 0 < r.objs[n].refs {
      TrimmedLinkOk(h, s, pop, n);
    }
    forall x | x in r.held ensures x in r.objs {
      TrimmedHeld(h, s, pop, x);
    }
  }

  lemma TrimmedObjects(h: Heap, s: Id, pop: bool)
    requires Halved(h, s) && 0 < |h.objs[s].shape.items|
    ensures Trimmed(h, s, pop).objs.Keys == h.objs.Keys
    ensures forall n :: n in h.objs ==> 0 < Trimmed(h, s, pop).objs[n].refs
  {
    hide Counted, Shared, Faithful, Acyclic, LinkOk;
  }

  lemma TrimmedHeld(h: Heap, s: Id, pop: bool, x: Id)
    requires Halved(h, s) && 0 < |h.objs[s].shape.items| && x in Trimmed(h, s, pop).held
    ensures x in h.objs
  {
    assert LinkOk(h, s);
    hide Counted, Shared, Faithful, Acyclic, LinkOk;
    if x in h.objs[s].shape.items {
      ChildIsLive(h, s, x);
    }
  }

  lemma TrimmedAcyclic(h: Heap, s: Id, pop: bool)
    requires Halved(h, s) && 0 < |h.objs[s].shape.items|
    ensures Acyclic(Trimmed(h, s, pop).objs)
  {
    hide Counted, Shared, Faithful, Linked;
    var r := Trimmed(h, s, pop);
    var rank :| Ranked(h.objs, rank);
    forall n, i | n in r.objs && 0 <= i < |Children(r.objs[n].shape)|
      ensures var c := Children(r.objs[n].shape)[i]; c in rank && rank[c] < rank[n]
    {
      assert Children(r.objs[n].shape)[i] == Children(h.objs[n].shape)[i];
    }
    assert Ranked(r.objs, rank);
  }

  /** The storage settles down to its remaining view. */
  lemma TrimmedWorks(h: Heap, s: Id, pop: bool, v: Id)
    requires Halved(h, s) && Shows(h, s, pop) && 0 < |h.objs[s].shape.items|
    requires v in h.objs && h.objs[v].shape.View? && h.objs[v].shape.storage == s
    ensures Sound(Trimmed(h, s, pop))
  {
    hide Linked, Counted, Shared, Faithful, Acyclic;
    TrimmedLinked(h, s, pop);
    TrimmedCounted(h, s, pop);
    TrimmedShared(h, s, pop, v);
    TrimmedAcyclic(h, s, pop);
  }

  lemma TrimmedView(h: Heap, s: Id, pop: bool, w: Id)
    requires Halved(h, s) && Shows(h, s, pop) && w in h.objs && 0 < |h.objs[s].shape.items|
    ensures ViewOk(Trimmed(h, s, pop), w)
    ensures w != s ==> Items(Trimmed(h, s, pop), w) == Items(h, w)
  {
    LinkAt(h, w);
    hide Sound;
    var r, items := Trimmed(h, s, pop), h.objs[s].shape.items;
    var n := if pop then |items| - 1 else |items|;
    assert r.objs[s] == Obj(1, Storage(h.objs[s].shape.capacity, items[..n]));
    if h.objs[w].shape.View? && h.objs[w].shape.storage == s {
      assert h.objs[w].shape.count == n;
      assert items[..n][..n] == items[..n];
    } else {
      assert w != s ==> r.objs[w] == h.objs[w];
    }
  }

  lemma TrimmedShared(h: Heap, s: Id, pop: bool, v: Id)
    requires Halved(h, s) && Shows(h, s, pop) && 0 < |h.objs[s].shape.items|
    requires v in h.objs && h.objs[v].shape.View? && h.objs[v].shape.storage == s
    ensures Shared(Trimmed(h, s, pop)) && Faithful(Trimmed(h, s, pop))
  {
    hide Linked, Counted, Acyclic, ViewOk, Items;
    var r := Trimmed(h, s, pop);
    assert ViewOk(h, v);
    forall w ensures ViewOk(r, w) {
      if w in r.objs {
        TrimmedView(h, s, pop, w);
      } else {
        NoView(r, w);
      }
    }
    forall w, u | Siblings(r, w, u) ensures r.objs[w].shape.count != r.objs[u].shape.count {
      assert Siblings(h, w, u);
    }
    forall t | IsStorage(r, t)
      ensures r.objs[t].refs <= 2 && 0 < |r.objs[t].shape.items| <= r.objs[t].shape.capacity
    {
      assert IsStorage(h, t);
      ViewHasItems(h, v);
    }
    forall w | IsValue(r, w) ensures w in r.created && r.created[w] == Items(r, w) {
      assert IsValue(h, w);
      TrimmedView(h, s, pop, w);
    }
  }

  lemma ViewHasItems(h: Heap, v: Id)
    requires v in h.objs && h.objs[v].shape.View? && ViewOk(h, v)
    ensures 0 < h.objs[v].shape.count
  {
  }

  // ----- Release -----

  /** What taking out a value must leave: a sound heap in which the caller holds exactly
      what the value owned in its place. */
  ghost predicate UnlinkOk(h: Heap, v: Id)
    requires v in h.objs
  {
    var (r, owed) := Unlink(h, v);
    && Inv(r)
    && r.held == h.held - multiset{v} + multiset(owed)
    && (forall w :: w in r.created ==> w in h.created && r.created[w] == h.created[w])
  }

  lemma RemovedHeldValues(h: Heap, v: Id)
    requires Dying(h, v) && !h.objs[v].shape.View?
    requires forall x :: x in h.held && x != v ==> IsValue(h, x)
    ensures HeldValues(Removed(h, v))
  {
    hide Sound, LinkOk;
    var r := Removed(h, v);
    LinkAt(h, v);
    forall x | x in r.held ensures IsValue(r, x) {
      RemovedHeld(h, v, x);
      if x in Owned(h.objs[v]) {
        ChildIsLive(h, v, x);
      }
    }
  }

  lemma UnlinkValue(h: Heap, v: Id)
    requires Dying(h, v) && Inv(h) && !h.objs[v].shape.View?
    ensures UnlinkOk(h, v)
  {
    hide Sound;
    RemovedWorks(h, v);
    RemovedHeldValues(h, v);
    assert Unlink(h, v).0 == Removed(h, v);
    assert Unlink(h, v).1 == Children(h.objs[v].shape);
  }

  /** After a view is taken out, its storage is the only storage in hand. */
  lemma ViewRemoved(h: Heap, v: Id) returns (m: Heap)
    requires Dying(h, v) && Inv(h) && h.objs[v].shape.View?
    ensures m == Removed(h, v) && Sound(m)
    ensures var s := h.objs[v].shape.storage;
            && s != v && IsStorage(h, s) && IsStorage(m, s) && m.objs[s] == h.objs[s]
            && m.held[s] == 1 && m.held == h.held - multiset{v} + multiset{s}
            && (forall x :: x in m.held && x != s ==> IsValue(m, x))
            && m.created == h.created - {v}
  {
    hide Sound;
    RemovedWorks(h, v);
    LinkAt(h, v);
    m := Removed(h, v);
    var s := h.objs[v].shape.storage;
    ChildIsLive(h, v, s);
    forall x | x in m.held && x != s ensures IsValue(m, x) {
      RemovedHeld(h, v, x);
    }
  }

  /** The last view of a storage takes the storage with it. */
  lemma UnlinkLastView(h: Heap, v: Id)
    requires Dying(h, v) && Inv(h) && h.objs[v].shape.View?
    requires IsStorage(h, h.objs[v].shape.storage) && h.objs[h.objs[v].shape.storage].refs == 1
    ensures UnlinkOk(h, v)
  {
    hide Sound;
    var s := h.objs[v].shape.storage;
    var m := ViewRemoved(h, v);
    RemovedWorks(m, s);
    RemovedHeldValues(m, s);
    StorageNotCreated(m, s);
    var (r, owed) := Unlink(h, v);
    assert m.held - multiset{s} == h.held - multiset{v};
    assert r.objs == Removed(m, s).objs;
    assert r == Removed(m, s);
  }

  lemma StorageNotCreated(h: Heap, s: Id)
    requires Sound(h) && IsStorage(h, s)
    ensures h.created - {s} == h.created
  {
    hide Linked, Counted, Shared, Acyclic;
  }

  lemma OtherView(m: Heap, s: Id) returns (w: Id)
    requires Halved(m, s)
    ensures w in m.objs && m.objs[w].shape.View? && m.objs[w].shape.storage == s
  {
    hide Linked, Shared, Acyclic, Faithful, Edges;
    w := EdgesOwner(m.objs, s);
    LinkAt(m, w);
    ChildIsLive(m, w, s);
  }

  /** Of two views of a storage, one shows all items and the other all but the last. */
  lemma OtherViewShows(h: Heap, v: Id, m: Heap)
    requires Sound(h) && v in h.objs && h.objs[v].shape.View?
    requires m == Removed(h, v) && IsStorage(h, h.objs[v].shape.storage) && h.objs[v].shape.storage != v
    ensures var View(s, n) := h.objs[v].shape;
            Shows(m, s, n == |h.objs[s].shape.items|) && 0 < |h.objs[s].shape.items|
  {
    hide Linked, Counted, Acyclic, Faithful;
    var View(s, n) := h.objs[v].shape;
    assert ViewOk(h, v);
    forall w | w in m.objs && m.objs[w].shape.View? && m.objs[w].shape.storage == s
      ensures m.objs[w].shape.count + (if n == |h.objs[s].shape.items| then 1 else 0) == |m.objs[s].shape.items|
    {
      assert Siblings(h, v, w) && ViewOk(h, w);
    }
  }

  lemma UnlinkOneOfTwo(h: Heap, v: Id)
    requires Dying(h, v) && Inv(h) && h.objs[v].shape.View?
    requires IsStorage(h, h.objs[v].shape.storage) && h.objs[h.objs[v].shape.storage].refs == 2
    ensures UnlinkOk(h, v)
  {
    hide Sound, Shows, Trimmed, Unlink;
    var View(s, n) := h.objs[v].shape;
    var items := h.objs[s].shape.items;
    var m := ViewRemoved(h, v);
    var w := OtherView(m, s);
    OtherViewShows(h, v, m);
    TrimmedWorks(m, s, n == |items|, w);
    TrimmedHeldValues(m, s, n == |items|);
    TrimmedIsUnlink(h, v, m);
  }

  lemma TrimmedHeldValues(m: Heap, s: Id, pop: bool)
    requires Halved(m, s) && 0 < |m.objs[s].shape.items|
    requires forall x :: x in m.held && x != s ==> IsValue(m, x)
    ensures HeldValues(Trimmed(m, s, pop))
  {
    hide Sound, LinkOk;
    LinkAt(m, s);
    var r, items := Trimmed(m, s, pop), m.objs[s].shape.items;
    forall x | x in r.held ensures IsValue(r, x) {
      if x in items {
        ChildIsLive(m, s, x);
      }
    }
  }

  lemma TrimmedIsUnlink(h: Heap, v: Id, m: Heap)
    requires v in h.objs && h.objs[v].shape.View? && m == Removed(h, v) && v !in m.objs
    requires var s := h.objs[v].shape.storage;
             && IsStorage(h, s) && s != v && h.objs[s].refs == 2 && 0 < |h.objs[s].shape.items|
             && m.held == h.held - multiset{v} + multiset{s}
    ensures var View(s, n) := h.objs[v].shape;
            var (r, owed) := Unlink(h, v);
            && r == Trimmed(m, s, n == |h.objs[s].shape.items|)
            && r.held == h.held - multiset{v} + multiset(owed) && r.created == h.created - {v}
  {
    var View(s, n) := h.objs[v].shape;
    var items := h.objs[s].shape.items;
    var (r, owed) := Unlink(h, v);
    assert m.held - multiset{s} == h.held - multiset{v};
    assert items[..|items|] == items && items[|items|..] == [];
    if n == |items| {
      assert items[n - 1..] == [items[n - 1]];
    }
  }

  /** Taking a dead value out of the heap, whatever it is. */
  lemma UnlinkWorks(h: Heap, v: Id)
    requires Inv(h) && v in h.held && v in h.objs && h.objs[v].refs == 1
    ensures UnlinkOk(h, v)
  {
    if !h.objs[v].shape.View? {
      UnlinkValue(h, v);
    } else {
      var s := h.objs[v].shape.storage;
      LinkAt(h, v);
      ChildIsLive(h, v, s);
      if h.objs[s].refs == 1 {
        UnlinkLastView(h, v);
      } else {
        UnlinkOneOfTwo(h, v);
      }
    }
  }

  ghost predicate ReleaseOk(h: Heap, r: Heap, dropped: multiset<Id>) {
    && Inv(r) && r.held == h.held - dropped
    && (forall w :: w in r.created ==> w in h.created && r.created[w] == h.created[w])
  }

  lemma HeldIsLive(h: Heap, v: Id)
    requires Inv(h) && v in h.held
    ensures IsValue(h, v) && 0 < h.objs[v].refs
  {
  }

  /** Releasing a held reference keeps the heap in order, changes no survivor and leaves the
      other outside references alone. */
  lemma {:induction false} ReleaseWorks(h: Heap, v: Id)
    requires Inv(h) && v in h.held
    ensures ReleaseOk(h, Release(h, v), multiset{v})
    decreases h.objs.Keys, 0
  {
    hide Inv, Unlink;
    HeldIsLive(h, v);
    if h.objs[v].refs > 1 {
      RecountWorks(h, v, h.objs[v].refs - 1, h.held - multiset{v});
    } else {
      UnlinkWorks(h, v);
      var (m, owed) := Unlink(h, v);
      ReleaseAllWorks(m, owed);
      assert m.held - multiset(owed) == h.held - multiset{v};
    }
  }

  lemma {:induction false} ReleaseAllWorks(h: Heap, items: seq<Id>)
    requires Inv(h) && multiset(items) <= h.held
    ensures ReleaseOk(h, ReleaseAll(h, items), multiset(items))
    decreases h.objs.Keys, 1 + |items|
  {
    hide Inv, Release;
    if items != [] {
      FirstOfMany(items, h.held);
      ReleaseWorks(h, items[0]);
      var m := Release(h, items[0]);
      ReleaseAllWorks(m, items[1..]);
      ReleasedTwice(h, m, ReleaseAll(m, items[1..]), multiset{items[0]}, multiset(items[1..]));
    }
  }

  lemma FirstOfMany(items: seq<Id>, held: multiset<Id>)
    requires items != [] && multiset(items) <= held
    ensures multiset(items) == multiset{items[0]} + multiset(items[1..])
    ensures items[0] in held && multiset(items[1..]) <= held - multiset{items[0]}
  {
    assert items == [items[0]] + items[1..];
  }

  lemma ReleasedTwice(h: Heap, m: Heap, r: Heap, a: multiset<Id>, b: multiset<Id>)
    requires ReleaseOk(h, m, a) && ReleaseOk(m, r, b) && a + b <= h.held
    ensures ReleaseOk(h, r, a + b)
  {
    hide Inv;
    assert h.held - a - b == h.held - (a + b);
  }
}
