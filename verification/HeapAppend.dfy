/** Construction and append: the sharing path never closes an ownership cycle and cannot be
    told apart from the copying path. */
module HeapAppend {
  import opened HeapModel
  import opened HeapProofs

  // ----- Paths of ownership -----

  ghost predicate Path(objs: map<Id, Obj>, p: seq<Id>) {
    |p| > 0 && forall i :: 0 <= i < |p| - 1 ==> p[i] in objs && p[i + 1] in Children(objs[p[i]].shape)
  }

  ghost predicate PathBetween(objs: map<Id, Obj>, p: seq<Id>, a: Id, b: Id) {
    Path(objs, p) && p[0] == a && p[|p| - 1] == b
  }

  ghost predicate Reaches(objs: map<Id, Obj>, a: Id, b: Id) {
    exists p :: PathBetween(objs, p, a, b)
  }

  lemma ReachesSelf(objs: map<Id, Obj>, a: Id)
    ensures Reaches(objs, a, a)
  {
    assert PathBetween(objs, [a], a, a);
  }

  lemma ReachesFromParent(objs: map<Id, Obj>, a: Id, c: Id, b: Id)
    requires a in objs && c in Children(objs[a].shape) && Reaches(objs, c, b)
    ensures Reaches(objs, a, b)
  {
    var p :| PathBetween(objs, p, c, b);
    assert PathBetween(objs, [a] + p, a, b);
  }

  // ----- The independence check -----

  lemma {:induction false} IndependentEach(h: Heap, items: seq<Id>, target: Id, budget: nat, x: Id)
    returns (b: nat)
    requires IndependentAll(h, items, target, budget).0 && x in items
    ensures Independent(h, x, target, b).0
    decreases |items|
  {
    if x == items[0] {
      b := budget;
    } else {
      b := IndependentEach(h, items[1..], target, Independent(h, items[0], target, budget).1, x);
    }
  }

  /** No ownership path leads from an item found independent to the storage. */
  lemma {:induction false} IndependentPath(h: Heap, item: Id, target: Id, budget: nat, p: seq<Id>)
    requires Linked(h) && IsStorage(h, target) && IsValue(h, item)
    requires Independent(h, item, target, budget).0
    ensures !PathBetween(h.objs, p, item, target)
    decreases |p|
  {
    if PathBetween(h.objs, p, item, target) {
      assert LinkOk(h, item);
      assert p[1] in Children(h.objs[item].shape);
      if h.objs[item].shape.View? {
        var s := h.objs[item].shape.storage;
        assert LinkOk(h, s);
        assert p[2] in Children(h.objs[s].shape);
        ChildIsLive(h, s, p[2]);
        var b := IndependentEach(h, h.objs[s].shape.items, target, budget - 1, p[2]);
        assert PathBetween(h.objs, p[2..], p[2], target);
        IndependentPath(h, p[2], target, b, p[2..]);
      } else {
        ChildIsLive(h, item, p[1]);
        var b := IndependentEach(h, Children(h.objs[item].shape), target, budget - 1, p[1]);
        assert PathBetween(h.objs, p[1..], p[1], target);
        IndependentPath(h, p[1], target, b, p[1..]);
      }
    }
  }

  /** What `append_independent` promises: sharing cannot make the storage own itself. */
  lemma IndependentSound(h: Heap, item: Id, target: Id, budget: nat)
    requires Inv(h) && IsStorage(h, target) && IsValue(h, item)
    requires Independent(h, item, target, budget).0
    ensures !Reaches(h.objs, item, target)
  {
    forall p ensures !PathBetween(h.objs, p, item, target) {
      IndependentPath(h, item, target, budget, p);
    }
  }

  // ----- Acyclicity of the extended storage -----

  ghost function Raised(objs: map<Id, Obj>, rank: map<Id, nat>, s: Id, d: nat): map<Id, nat> {
    map n | n in rank :: if Reaches(objs, n, s) then rank[n] + d else rank[n]
  }

  /** An edge to an object from which `s` is unreachable closes no cycle: raise everything
      that reaches `s` above the new child. */
  lemma ExtendAcyclic(objs: map<Id, Obj>, s: Id, o: Obj, item: Id)
    requires Acyclic(objs) && s in objs && item in objs && !Reaches(objs, item, s)
    requires forall x :: x in Children(o.shape) ==> x in Children(objs[s].shape) || x == item
    ensures Acyclic(objs[s := o])
  {
    var rank :| Ranked(objs, rank);
    var raised := Raised(objs, rank, s, rank[item] + 1);
    var objs' := objs[s := o];
    ReachesSelf(objs, s);
    forall n, i | n in objs' && 0 <= i < |Children(objs'[n].shape)|
      ensures var c := Children(objs'[n].shape)[i]; c in raised && raised[c] < raised[n]
    {
      var c := Children(objs'[n].shape)[i];
      if n == s && c == item {
      } else {
        assert c in Children(objs[n].shape);
        var j :| 0 <= j < |Children(objs[n].shape)| && Children(objs[n].shape)[j] == c;
        assert rank[c] < rank[n];
        if Reaches(objs, c, s) {
          ReachesFromParent(objs, n, c, s);
        }
      }
    }
    assert Ranked(objs', raised);
  }

  lemma {:induction false} RankBound(rank: map<Id, nat>) returns (b: nat)
    ensures forall n :: n in rank ==> rank[n] < b
    decreases rank.Keys
  {
    if rank.Keys == {} {
      b := 0;
    } else {
      var k := Pick(rank.Keys);
      var c := RankBound(rank - {k});
      b := if rank[k] < c then c else rank[k] + 1;
      forall n | n in rank ensures rank[n] < b {
        assert n != k ==> n in rank - {k};
      }
    }
  }

  lemma InstallAcyclic(objs: map<Id, Obj>, id: Id, o: Obj)
    requires Acyclic(objs) && id !in objs
    requires forall n, i :: n in objs && 0 <= i < |Children(objs[n].shape)| ==> Children(objs[n].shape)[i] in objs
    requires forall i :: 0 <= i < |Children(o.shape)| ==> Children(o.shape)[i] in objs
    ensures Acyclic(objs[id := o])
  {
    var rank :| Ranked(objs, rank);
    var b := RankBound(rank);
    assert Ranked(objs[id := o], rank[id := b]);
  }

  // ----- Installing a new object -----

  /** The object is in place, its children's references are its own, and its single
      reference is in the caller's hand. */
  ghost function Installed(h: Heap, id: Id, o: Shape, denotes: seq<Id>): Heap {
    h.(objs := h.objs[id := Obj(1, o)],
       held := h.held - multiset(Children(o)) + multiset{id},
       created := if o.Storage? then h.created else h.created[id := denotes])
  }

  /** A new object fits: its children are live and in the caller's hand; a new view shows
      all of a storage that no other view shows completely. */
  ghost predicate Fits(h: Heap, id: Id, o: Shape, denotes: seq<Id>) {
    && Sound(h) && id !in h.objs
    && multiset(Children(o)) <= h.held
    && (forall i :: 0 <= i < |Children(o)| ==>
          if o.View? then IsStorage(h, Children(o)[i]) else IsValue(h, Children(o)[i]))
    && (o.Storage? ==> 0 < |o.items| <= o.capacity)
    && (o.View? ==>
          && IsStorage(h, o.storage) && h.objs[o.storage].shape.items == denotes
          && o.count == |denotes| && o.count > 0
          && forall w :: w in h.objs && h.objs[w].shape.View? && h.objs[w].shape.storage == o.storage ==>
               h.objs[w].shape.count != o.count)
    && (!o.View? ==> denotes == Children(o))
  }

  lemma InstalledLinked(h: Heap, id: Id, o: Shape, denotes: seq<Id>)
    requires Fits(h, id, o, denotes)
    ensures Linked(Installed(h, id, o, denotes))
  {
    hide Counted, Shared, Acyclic, Faithful, LinkOk;
    var r := Installed(h, id, o, denotes);
    forall n | n in r.objs ensures LinkOk(r, n) && 0 < r.objs[n].refs {
      InstalledLinkOk(h, id, o, denotes, n);
    }
  }

  lemma InstalledLinkOk(h: Heap, id: Id, o: Shape, denotes: seq<Id>, n: Id)
    requires Fits(h, id, o, denotes) && (n in h.objs || n == id)
    ensures LinkOk(Installed(h, id, o, denotes), n)
  {
    hide Counted, Shared, Acyclic, Faithful;
    assert n != id ==> LinkOk(h, n);
  }

  lemma NoEdgeTo(h: Heap, id: Id)
    requires Linked(h) && id !in h.objs
    ensures Edges(h.objs)[id] == 0 && h.held[id] == 0
  {
    hide Edges;
    if id in Edges(h.objs) {
      var p := EdgesOwner(h.objs, id);
      assert LinkOk(h, p);
      ChildIsLive(h, p, id);
    }
  }

  lemma InstalledCounted(h: Heap, id: Id, o: Shape, denotes: seq<Id>)
    requires Fits(h, id, o, denotes)
    ensures Counted(Installed(h, id, o, denotes))
  {
    NoEdgeTo(h, id);
    hide Linked, Shared, Acyclic, Faithful, Edges;
    var r := Installed(h, id, o, denotes);
    EdgesInsert(h.objs, id, Obj(1, o));
    forall n | n in r.objs ensures r.objs[n].refs == r.held[n] + Edges(r.objs)[n] {
      assert n != id ==> h.objs[n].refs == h.held[n] + Edges(h.objs)[n];
      assert id !in Children(o);
    }
  }

  lemma InstalledView(h: Heap, id: Id, o: Shape, denotes: seq<Id>, w: Id)
    requires Fits(h, id, o, denotes) && (w in h.objs || w == id)
    ensures ViewOk(Installed(h, id, o, denotes), w)
    ensures w in h.objs ==> Items(Installed(h, id, o, denotes), w) == Items(h, w)
    ensures w == id ==> Items(Installed(h, id, o, denotes), w) == denotes
  {
    hide Linked, Counted, Acyclic, Faithful;
    assert ViewOk(h, w);
  }

  lemma InstalledShared(h: Heap, id: Id, o: Shape, denotes: seq<Id>)
    requires Fits(h, id, o, denotes)
    ensures Shared(Installed(h, id, o, denotes)) && Faithful(Installed(h, id, o, denotes))
  {
    hide Linked, Counted, Acyclic, ViewOk, Items;
    var r := Installed(h, id, o, denotes);
    forall w ensures ViewOk(r, w) {
      if w in r.objs {
        InstalledView(h, id, o, denotes, w);
      } else {
        NoView(r, w);
      }
    }
    forall w, u | Siblings(r, w, u) ensures r.objs[w].shape.count != r.objs[u].shape.count {
      assert w != id && u != id ==> Siblings(h, w, u);
    }
    forall s | IsStorage(r, s)
      ensures r.objs[s].refs <= 2 && 0 < |r.objs[s].shape.items| <= r.objs[s].shape.capacity
    {
      assert s != id ==> IsStorage(h, s);
    }
    forall w | IsValue(r, w) ensures w in r.created && r.created[w] == Items(r, w) {
      assert w != id ==> IsValue(h, w);
      InstalledView(h, id, o, denotes, w);
    }
    forall w | w in r.created ensures IsValue(r, w) {
      assert w in h.created ==> IsValue(h, w);
    }
  }

  lemma InstalledAcyclic(h: Heap, id: Id, o: Shape, denotes: seq<Id>)
    requires Fits(h, id, o, denotes)
    ensures Acyclic(Installed(h, id, o, denotes).objs)
  {
    hide Counted, Shared, Faithful;
    forall n, i | n in h.objs && 0 <= i < |Children(h.objs[n].shape)|
      ensures Children(h.objs[n].shape)[i] in h.objs
    {
      assert LinkOk(h, n);
    }
    hide Linked, Acyclic;
    InstallAcyclic(h.objs, id, Obj(1, o));
  }

  lemma InstalledWorks(h: Heap, id: Id, o: Shape, denotes: seq<Id>)
    requires Fits(h, id, o, denotes)
    ensures Sound(Installed(h, id, o, denotes))
  {
    hide Linked, Counted, Shared, Faithful, Acyclic;
    InstalledLinked(h, id, o, denotes);
    InstalledCounted(h, id, o, denotes);
    InstalledShared(h, id, o, denotes);
    InstalledAcyclic(h, id, o, denotes);
  }

  // ----- Extending a storage in place -----

  /** The storage owns one more item; the reference for its second view is in hand. */
  ghost function Extended(h: Heap, s: Id, item: Id): Heap
    requires IsStorage(h, s)
  {
    var Storage(capacity, items) := h.objs[s].shape;
    h.(objs := h.objs[s := Obj(2, Storage(capacity, items + [item]))],
       held := h.held - multiset{item} + multiset{s})
  }

  ghost predicate Extensible(h: Heap, s: Id, item: Id) {
    && Sound(h) && IsStorage(h, s) && h.objs[s].refs == 1 && h.held[s] == 0
    && item in h.held && IsValue(h, item) && !Reaches(h.objs, item, s)
    && |h.objs[s].shape.items| < h.objs[s].shape.capacity
  }

  lemma ExtendedLinkOk(h: Heap, s: Id, item: Id, n: Id)
    requires Extensible(h, s, item) && n in h.objs
    ensures LinkOk(Extended(h, s, item), n)
  {
    hide Counted, Shared, Acyclic, Faithful, Reaches;
    assert LinkOk(h, n);
  }

  lemma ExtendedLinked(h: Heap, s: Id, item: Id)
    requires Extensible(h, s, item)
    ensures Linked(Extended(h, s, item))
  {
    hide Counted, Shared, Acyclic, Faithful, LinkOk, Reaches;
    var r := Extended(h, s, item);
    forall n | n in r.objs ensures LinkOk(r, n) && 0 < r.objs[n].refs {
      ExtendedLinkOk(h, s, item, n);
    }
  }

  lemma ExtendedCounted(h: Heap, s: Id, item: Id)
    requires Extensible(h, s, item)
    ensures Counted(Extended(h, s, item))
  {
    hide Linked, Shared, Acyclic, Faithful, Edges, Reaches;
    var r, items := Extended(h, s, item), h.objs[s].shape.items;
    EdgesUpdate(h.objs, s, r.objs[s]);
    assert Owned(r.objs[s]) == Owned(h.objs[s]) + multiset{item};
    forall n | n in r.objs ensures r.objs[n].refs == r.held[n] + Edges(r.objs)[n] {
      assert h.objs[n].refs == h.held[n] + Edges(h.objs)[n];
      assert (Edges(r.objs) + Owned(h.objs[s]))[n] == (Edges(h.objs) + Owned(r.objs[s]))[n];
    }
  }

  lemma ExtendedView(h: Heap, s: Id, item: Id, w: Id)
    requires Extensible(h, s, item) && w in h.objs
    ensures ViewOk(Extended(h, s, item), w)
    ensures w != s ==> Items(Extended(h, s, item), w) == Items(h, w)
    ensures h.objs[w].shape.View? && h.objs[w].shape.storage == s ==>
              h.objs[w].shape.count == |h.objs[s].shape.items|
  {
    hide Linked, Counted, Acyclic, Faithful, Reaches;
    assert ViewOk(h, w);
  }

  lemma ExtendedShared(h: Heap, s: Id, item: Id)
    requires Extensible(h, s, item)
    ensures Shared(Extended(h, s, item)) && Faithful(Extended(h, s, item))
  {
    hide Linked, Counted, Acyclic, ViewOk, Items, Reaches;
    var r := Extended(h, s, item);
    forall w ensures ViewOk(r, w) {
      if w in r.objs {
        ExtendedView(h, s, item, w);
      } else {
        NoView(r, w);
      }
    }
    forall w, u | Siblings(r, w, u) ensures r.objs[w].shape.count != r.objs[u].shape.count {
      assert Siblings(h, w, u);
    }
    forall t | IsStorage(r, t)
      ensures r.objs[t].refs <= 2 && 0 < |r.objs[t].shape.items| <= r.objs[t].shape.capacity
    {
      assert IsStorage(h, t);
    }
    forall w | IsValue(r, w) ensures w in r.created && r.created[w] == Items(r, w) {
      assert IsValue(h, w);
      ExtendedView(h, s, item, w);
    }
  }

  lemma ExtendedWorks(h: Heap, s: Id, item: Id)
    requires Extensible(h, s, item)
    ensures Sound(Extended(h, s, item))
  {
    hide Linked, Counted, Shared, Faithful, Acyclic, Reaches;
    ExtendedLinked(h, s, item);
    ExtendedCounted(h, s, item);
    ExtendedShared(h, s, item);
    ExtendAcyclic(h.objs, s, Extended(h, s, item).objs[s], item);
  }

  // ----- The public operations -----

  ghost predicate SameReach(h: Heap, r: Heap) {
    r.objs.Keys == h.objs.Keys && forall n :: n in h.objs ==> r.objs[n].shape == h.objs[n].shape
  }

  lemma ReachTransfer(h: Heap, r: Heap, a: Id, b: Id)
    requires SameReach(h, r) && Reaches(r.objs, a, b)
    ensures Reaches(h.objs, a, b)
  {
    var p :| PathBetween(r.objs, p, a, b);
    assert PathBetween(h.objs, p, a, b);
  }

  /** What any operation that makes value `id` guarantees. */
  ghost predicate Made(h: Heap, r: Heap, id: Id, denotes: seq<Id>) {
    && Inv(r)
    && r.held == h.held + multiset{id}
    && r.created == h.created[id := denotes]
  }

  lemma SharedStorage(h: Heap, a: Id, item: Id) returns (m: Heap)
    requires Inv(h) && CanShare(h, a, item) && IsValue(h, item)
    ensures m == Retain(h, item) && Extensible(m, h.objs[a].shape.storage, item)
    ensures m.objs[h.objs[a].shape.storage] == h.objs[h.objs[a].shape.storage]
    ensures h.objs[a].shape.count == |h.objs[h.objs[a].shape.storage].shape.items|
    ensures HeldValues(m) && m.held == h.held + multiset{item} && m.created == h.created
    ensures m.objs.Keys == h.objs.Keys && Items(h, a) == h.objs[h.objs[a].shape.storage].shape.items
  {
    hide Sound, Independent, Reaches;
    var s := h.objs[a].shape.storage;
    LinkAt(h, a);
    IndependentSound(h, item, s, BUDGET);
    RetainWorks(h, item);
    m := Retain(h, item);
    if Reaches(m.objs, item, s) {
      ReachTransfer(h, m, item, s);
    }
    var st := h.objs[s].shape.items;
    assert st[..|st|] == st;
  }

  lemma ExtendedFits(m: Heap, s: Id, item: Id, id: Id)
    requires Extensible(m, s, item) && Sound(Extended(m, s, item)) && id !in m.objs
    ensures var items := m.objs[s].shape.items + [item];
            Fits(Extended(m, s, item), id, View(s, |items|), items)
  {
    hide Sound, Reaches, ViewOk, Items;
    var e := Extended(m, s, item);
    forall w | w in e.objs && e.objs[w].shape.View? && e.objs[w].shape.storage == s
      ensures e.objs[w].shape.count != |m.objs[s].shape.items| + 1
    {
      ExtendedView(m, s, item, w);
    }
  }

  lemma AppendSharedIs(h: Heap, a: Id, item: Id, id: Id, m: Heap)
    requires CanShare(h, a, item) && m == Retain(h, item) && IsValue(h, item)
    requires var View(s, n) := h.objs[a].shape;
             && IsStorage(m, s) && m.objs[s] == h.objs[s] && n == |h.objs[s].shape.items|
             && Items(h, a) == h.objs[s].shape.items && h.held[s] == 0
    ensures var View(s, n) := h.objs[a].shape;
            var items := h.objs[s].shape.items + [item];
            var r := Installed(Extended(m, s, item), id, View(s, |items|), items);
            && AppendShared(h, a, item, id) == r
            && r.held == h.held + multiset{id} && r.created == h.created[id := items]
  {
    hide Independent;
    var View(s, n) := h.objs[a].shape;
    var e := Extended(m, s, item);
    assert e.held - multiset{s} == h.held;
  }

  /** The sharing append: sound, and it denotes the old elements and the new one. */
  lemma AppendSharedWorks(h: Heap, a: Id, item: Id, id: Id)
    requires Inv(h) && CanShare(h, a, item) && IsValue(h, item) && id !in h.objs
    ensures Made(h, AppendShared(h, a, item, id), id, Items(h, a) + [item])
  {
    hide Sound, Independent, Reaches, Installed, Extended, AppendShared, Items, Retain;
    var View(s, n) := h.objs[a].shape;
    var m := SharedStorage(h, a, item);
    ExtendedWorks(m, s, item);
    ExtendedFits(m, s, item, id);
    InstalledWorks(Extended(m, s, item), id, View(s, n + 1), Items(h, a) + [item]);
    AppendSharedIs(h, a, item, id, m);
    SharedHeldValues(h, AppendShared(h, a, item, id), id);
  }

  /** Outside code that held values before still does, together with the new one. */
  lemma SharedHeldValues(h: Heap, r: Heap, id: Id)
    requires HeldValues(h) && r.held == h.held + multiset{id}
    requires Sound(h) && Sound(r) && id in r.created
    requires forall v :: v in h.created ==> v in r.created
    ensures HeldValues(r)
  {
    hide Linked, Counted, Shared, Acyclic;
  }

  /** The elements of a live value are live values. */
  lemma ItemsAreValues(h: Heap, v: Id, x: Id)
    requires Sound(h) && IsValue(h, v) && x in Items(h, v)
    ensures IsValue(h, x)
  {
    LinkAt(h, v);
    if h.objs[v].shape.View? {
      var s := h.objs[v].shape.storage;
      LinkAt(h, s);
      hide Sound;
      assert x in h.objs[s].shape.items;
      ChildIsLive(h, s, x);
    } else {
      hide Sound;
      ChildIsLive(h, v, x);
    }
  }

  lemma NewStorageFits(m: Heap, sid: Id, capacity: nat, items: seq<Id>)
    requires Sound(m) && sid !in m.objs
    requires 0 < |items| <= capacity && multiset(items) <= m.held
    requires forall i :: 0 <= i < |items| ==> IsValue(m, items[i])
    ensures Fits(m, sid, Storage(capacity, items), items)
  {
    hide Sound;
  }

  lemma NewViewFits(m: Heap, sid: Id, id: Id, capacity: nat, items: seq<Id>)
    requires Sound(m) && sid !in m.objs && id !in m.objs && id != sid && 0 < |items|
    requires Sound(Installed(m, sid, Storage(capacity, items), items))
    ensures Fits(Installed(m, sid, Storage(capacity, items), items), id, View(sid, |items|), items)
  {
    hide Sound;
    var x := Installed(m, sid, Storage(capacity, items), items);
    forall w | w in x.objs && x.objs[w].shape.View? ensures x.objs[w].shape.storage != sid {
      LinkAt(m, w);
      ChildIsLive(m, w, m.objs[w].shape.storage);
    }
  }

  /** A fresh storage for live items, then a fresh view of it. */
  lemma NewStorageWorks(m: Heap, sid: Id, id: Id, capacity: nat, items: seq<Id>)
    requires Sound(m) && sid !in m.objs && id !in m.objs && id != sid
    requires 0 < |items| <= capacity && multiset(items) <= m.held
    requires forall i :: 0 <= i < |items| ==> IsValue(m, items[i])
    ensures var x := Installed(m, sid, Storage(capacity, items), items);
            Sound(Installed(x, id, View(sid, |items|), items))
  {
    hide Sound, Installed, Fits;
    NewStorageFits(m, sid, capacity, items);
    InstalledWorks(m, sid, Storage(capacity, items), items);
    NewViewFits(m, sid, id, capacity, items);
    InstalledWorks(Installed(m, sid, Storage(capacity, items), items), id, View(sid, |items|), items);
  }

  lemma AppendCopiedIs(h: Heap, a: Id, item: Id, id: Id, sid: Id, m: Heap)
    requires a in h.objs && m == RetainAll(h, Items(h, a) + [item])
    requires m.held == h.held + multiset(Items(h, a) + [item]) && h.held[sid] == 0
    requires m.created == h.created
    ensures var items := Items(h, a) + [item];
            var x := Installed(m, sid, Storage(Capacity(|items| - 1), items), items);
            var r := Installed(x, id, View(sid, |items|), items);
            && r == AppendCopied(h, a, item, id, sid)
            && r.held == h.held + multiset{id} && r.created == h.created[id := items]
  {
    hide Items, RetainAll;
    var items := Items(h, a) + [item];
    var x := Installed(m, sid, Storage(Capacity(|items| - 1), items), items);
    assert m.held - multiset(items) == h.held;
    assert x.held - multiset{sid} == h.held;
  }

  /** The copying append: sound, and it denotes the old elements and the new one. */
  lemma AppendCopiedWorks(h: Heap, a: Id, item: Id, id: Id, sid: Id)
    requires Inv(h) && IsArray(h, a) && IsValue(h, item) && |Items(h, a)| < LIMIT
    requires id !in h.objs && sid !in h.objs && id != sid
    ensures Made(h, AppendCopied(h, a, item, id, sid), id, Items(h, a) + [item])
  {
    hide Sound, Items, Installed, AppendCopied;
    var items := Items(h, a) + [item];
    forall i | 0 <= i < |items| ensures IsValue(h, items[i]) {
      if i < |items| - 1 {
        assert items[i] == Items(h, a)[i];
        ItemsAreValues(h, a, items[i]);
      }
    }
    RetainAllWorks(h, items);
    var m := RetainAll(h, items);
    NewStorageWorks(m, sid, id, Capacity(|items| - 1), items);
    FreshNotHeld(h, sid);
    AppendCopiedIs(h, a, item, id, sid, m);
    SharedHeldValues(h, AppendCopied(h, a, item, id, sid), id);
  }

  lemma FreshNotHeld(h: Heap, id: Id)
    requires HeldValues(h) && id !in h.objs
    ensures h.held[id] == 0
  {
  }

  /** `value_array_append` makes a version that denotes the old elements and the new one,
      or refuses an array at the size limit and changes nothing. */
  lemma AppendWorks(h: Heap, a: Id, item: Id, id: Id, sid: Id)
    requires Inv(h) && IsArray(h, a) && IsValue(h, item)
    requires id !in h.objs && sid !in h.objs && id != sid
    ensures var (r, ok) := Append(h, a, item, id, sid);
            && (ok <==> |Items(h, a)| < LIMIT)
            && (ok ==> Made(h, r, id, Items(h, a) + [item]))
            && (!ok ==> r == h)
  {
    hide Inv, Made, CanShare, AppendShared, AppendCopied, Items;
    if |Items(h, a)| < LIMIT {
      if CanShare(h, a, item) {
        AppendSharedWorks(h, a, item, id);
      } else {
        AppendCopiedWorks(h, a, item, id, sid);
      }
    }
  }

  lemma NewValueIs(h: Heap, id: Id, o: Shape, m: Heap)
    requires m == RetainAll(h, Children(o)) && !o.Storage?
    requires m.held == h.held + multiset(Children(o)) && m.created == h.created
    ensures var r := Installed(m, id, o, Children(o));
            && r == NewValue(h, id, o)
            && r.held == h.held + multiset{id} && r.created == h.created[id := Children(o)]
  {
    hide RetainAll, Children;
    assert m.held - multiset(Children(o)) == h.held;
  }

  /** `value_new`, `value_sequence`, `named_value`. */
  lemma NewValueWorks(h: Heap, id: Id, o: Shape)
    requires Inv(h) && id !in h.objs && !o.View? && !o.Storage?
    requires forall i :: 0 <= i < |Children(o)| ==> IsValue(h, Children(o)[i])
    ensures Made(h, NewValue(h, id, o), id, Children(o))
  {
    hide Sound, Children, Installed, NewValue;
    RetainAllWorks(h, Children(o));
    var m := RetainAll(h, Children(o));
    assert Fits(m, id, o, Children(o));
    InstalledWorks(m, id, o, Children(o));
    NewValueIs(h, id, o, m);
    SharedHeldValues(h, NewValue(h, id, o), id);
  }
}
