/** The guarantees of the value heap over whole runs: versions never change, and exactly the values
    that outside code can still reach are alive. */
module HeapTheorems {
  import opened HeapModel
  import opened HeapProofs
  import opened HeapAppend

  // ----- Exactly the reachable values are alive -----

  /** A chain of values, each an element of the one before. */
  ghost predicate Chain(h: Heap, p: seq<Id>) {
    |p| > 0 && forall i :: 0 <= i < |p| - 1 ==> p[i] in h.objs && p[i + 1] in Items(h, p[i])
  }

  /** Outside code can get to `v` by looking at elements, starting from what it holds. */
  ghost predicate Accessible(h: Heap, v: Id) {
    exists p :: Chain(h, p) && p[0] in h.held && p[|p| - 1] == v
  }

  lemma AccessibleElement(h: Heap, w: Id, v: Id)
    requires IsValue(h, w) && IsValue(h, v) && v in Items(h, w) && Accessible(h, w)
    ensures Accessible(h, v)
  {
    var p :| Chain(h, p) && p[0] in h.held && p[|p| - 1] == w;
    var q := p + [v];
    assert Chain(h, q) && q[0] in h.held && q[|q| - 1] == v;
  }

  ghost predicate ViewOf(h: Heap, w: Id, s: Id) {
    IsValue(h, w) && h.objs[w].shape.View? && h.objs[w].shape.storage == s
  }

  lemma SomeView(h: Heap, s: Id) returns (w: Id)
    requires Inv(h) && IsStorage(h, s)
    ensures ViewOf(h, w, s) && ViewOk(h, w) && 0 < h.objs[s].refs == Edges(h.objs)[s]
  {
    hide Edges, Acyclic, Faithful, Shared;
    assert 0 < h.objs[s].refs == h.held[s] + Edges(h.objs)[s];
    w := EdgesOwner(h.objs, s);
    LinkAt(h, w);
    ChildIsLive(h, w, s);
  }

  lemma SecondView(h: Heap, s: Id, w: Id) returns (u: Id)
    requires Inv(h) && IsStorage(h, s) && ViewOf(h, w, s) && Edges(h.objs)[s] == 2
    ensures ViewOf(h, u, s) && ViewOk(h, u) && u != w
    ensures h.objs[u].shape.count != h.objs[w].shape.count
  {
    hide Linked, Counted, Edges, Acyclic, Faithful;
    EdgesRemove(h.objs, w);
    assert Owned(h.objs[w]) == multiset{s};
    u := EdgesOwner(h.objs - {w}, s);
    LinkAt(h, u);
    ChildIsLive(h, u, s);
    assert Siblings(h, w, u);
  }

  /** Every storage is shown completely by one of its views. */
  lemma FullView(h: Heap, s: Id) returns (w: Id)
    requires Inv(h) && IsStorage(h, s)
    ensures ViewOf(h, w, s) && Items(h, w) == h.objs[s].shape.items
  {
    hide Sound, Edges;
    w := SomeView(h, s);
    var items := h.objs[s].shape.items;
    if h.objs[w].shape.count != |items| {
      w := SecondView(h, s, w);
    }
    assert items[..|items|] == items;
  }

  /** A storage has one view that shows all its items, or one such view and one that shows
      all but the last. */
  lemma StorageViews(h: Heap, s: Id) returns (w: Id, u: Id)
    requires Inv(h) && IsStorage(h, s)
    ensures ViewOf(h, w, s) && h.objs[w].shape.count == |h.objs[s].shape.items|
    ensures h.objs[s].refs == 1 ==> forall x :: ViewOf(h, x, s) ==> x == w
    ensures h.objs[s].refs != 1 ==>
      && h.objs[s].refs == 2 && u != w && ViewOf(h, u, s)
      && h.objs[u].shape.count + 1 == |h.objs[s].shape.items|
      && forall x :: ViewOf(h, x, s) ==> x == w || x == u
  {
    hide Linked, Counted, Acyclic, Faithful, Edges;
    w := SomeView(h, s);
    u := w;
    if h.objs[s].refs != 1 {
      u := SecondView(h, s, w);
      if h.objs[w].shape.count != |h.objs[s].shape.items| {
        w, u := u, w;
      }
    }
    forall x | ViewOf(h, x, s) ensures x == w || x == u {
      assert ViewOk(h, x);
      assert x != w ==> Siblings(h, x, w);
      assert x != u ==> Siblings(h, x, u);
    }
  }

  /** A value nobody outside holds is an element of some live value of higher rank. */
  lemma HasLiveOwner(h: Heap, v: Id, rank: map<Id, nat>) returns (w: Id)
    requires Inv(h) && IsValue(h, v) && v !in h.held && Ranked(h.objs, rank)
    ensures IsValue(h, w) && v in Items(h, w) && v in rank && w in rank && rank[v] < rank[w]
  {
    hide Edges, Acyclic, Faithful, Shared;
    assert 0 < h.objs[v].refs == h.held[v] + Edges(h.objs)[v];
    w := EdgesOwner(h.objs, v);
    LinkAt(h, w);
    ChildIsLive(h, w, v);
    RankStep(h, w, v, rank);
    if h.objs[w].shape.Storage? {
      var s := w;
      w := FullView(h, s);
      RankStep(h, w, s, rank);
    }
  }

  lemma RankStep(h: Heap, n: Id, c: Id, rank: map<Id, nat>)
    requires Ranked(h.objs, rank) && n in h.objs && c in Children(h.objs[n].shape)
    ensures c in rank && n in rank && rank[c] < rank[n]
  {
    var i :| 0 <= i < |Children(h.objs[n].shape)| && Children(h.objs[n].shape)[i] == c;
  }

  lemma {:induction false} LiveIsAccessible(h: Heap, v: Id, rank: map<Id, nat>, bound: nat)
    requires Inv(h) && IsValue(h, v) && Ranked(h.objs, rank)
    requires forall n :: n in rank ==> rank[n] < bound
    ensures Accessible(h, v)
    decreases bound - (if v in rank then rank[v] else 0)
  {
    hide Sound;
    if v in h.held {
      assert Chain(h, [v]) && [v][0] in h.held;
    } else {
      var w := HasLiveOwner(h, v, rank);
      LiveIsAccessible(h, w, rank, bound);
      AccessibleElement(h, w, v);
    }
  }

  lemma {:induction false} ChainIsLive(h: Heap, p: seq<Id>, i: nat)
    requires Inv(h) && Chain(h, p) && p[0] in h.held && i < |p|
    ensures IsValue(h, p[i])
  {
    hide Sound, Items;
    if i > 0 {
      ChainIsLive(h, p, i - 1);
      ItemsAreValues(h, p[i - 1], p[i]);
    }
  }

  /** Reference counting reclaims exactly what outside code can no longer get to. Shared
      storage keeps no element alive that copied arrays would not keep alive. */
  lemma ExactlyAccessibleIsLive(h: Heap, v: Id)
    requires Inv(h)
    ensures IsValue(h, v) <==> Accessible(h, v)
  {
    if IsValue(h, v) {
      var rank :| Ranked(h.objs, rank);
      var bound := RankBound(rank);
      LiveIsAccessible(h, v, rank, bound);
    }
    if Accessible(h, v) {
      var p :| Chain(h, p) && p[0] in h.held && p[|p| - 1] == v;
      ChainIsLive(h, p, |p| - 1);
    }
  }

  // ----- Runs -----

  /** A call with the references it needs: live values, and fresh names for what it makes. */
  datatype HeapCall =
    | MakeValue(id: Id, shape: Shape)
    | RetainValue(v: Id)
    | ReleaseValue(v: Id)
    | AppendValue(a: Id, item: Id, id: Id, sid: Id)

  ghost predicate Allowed(h: Heap, c: HeapCall) {
    match c
    case MakeValue(id, o) =>
      && id !in h.objs && !o.View? && !o.Storage?
      && forall i :: 0 <= i < |Children(o)| ==> IsValue(h, Children(o)[i])
    case RetainValue(v) => IsValue(h, v)
    case ReleaseValue(v) => v in h.held
    case AppendValue(a, item, id, sid) =>
      IsArray(h, a) && IsValue(h, item) && id !in h.objs && sid !in h.objs && id != sid
  }

  ghost function Apply(h: Heap, c: HeapCall): Heap
    requires Allowed(h, c)
  {
    match c
    case MakeValue(id, o) => NewValue(h, id, o)
    case RetainValue(v) => Retain(h, v)
    case ReleaseValue(v) => Release(h, v)
    case AppendValue(a, item, id, sid) => Append(h, a, item, id, sid).0
  }

  lemma ApplyWorks(h: Heap, c: HeapCall)
    requires Inv(h) && Allowed(h, c)
    ensures Inv(Apply(h, c))
    ensures forall v :: v in h.created && v in Apply(h, c).created ==> Apply(h, c).created[v] == h.created[v]
  {
    hide Sound, NewValue, Retain, Release, Append, Items;
    match c
    case MakeValue(id, o) =>
      NewValueWorks(h, id, o);
      FreshNotCreated(h, id);
    case RetainValue(v) =>
      RetainWorks(h, v);
      assert Retain(h, v).created == h.created by { RetainCreated(h, v); }
    case ReleaseValue(v) => ReleaseWorks(h, v);
    case AppendValue(a, item, id, sid) =>
      AppendWorks(h, a, item, id, sid);
      FreshNotCreated(h, id);
  }

  lemma RetainCreated(h: Heap, v: Id)
    ensures Retain(h, v).created == h.created
  {
  }

  lemma FreshNotCreated(h: Heap, id: Id)
    requires Sound(h) && id !in h.objs
    ensures id !in h.created
  {
  }

  /** The heaps that runs of allowed calls lead to, starting from the empty heap. */
  ghost predicate Reached(calls: seq<HeapCall>, h: Heap)
    decreases |calls|
  {
    if calls == [] then h == Heap(map[], multiset{}, map[])
    else
      var n := |calls| - 1;
      exists g :: Reached(calls[..n], g) && Allowed(g, calls[n]) && h == Apply(g, calls[n])
  }

  /** In every reachable heap counts are exact, ownership is acyclic, versions denote what
      they were created with, and exactly the accessible values are alive. */
  lemma {:induction false} EveryRun(calls: seq<HeapCall>, h: Heap)
    requires Reached(calls, h)
    ensures Inv(h)
    ensures forall v :: IsValue(h, v) <==> Accessible(h, v)
    decreases |calls|
  {
    hide Sound, Accessible, Apply, Allowed;
    if calls == [] {
      EmptyWorks();
    } else {
      var n := |calls| - 1;
      var g :| Reached(calls[..n], g) && Allowed(g, calls[n]) && h == Apply(g, calls[n]);
      EveryRun(calls[..n], g);
      ApplyWorks(g, calls[n]);
    }
    forall v ensures IsValue(h, v) <==> Accessible(h, v) {
      ExactlyAccessibleIsLive(h, v);
    }
  }

  lemma EmptyWorks()
    ensures Inv(Heap(map[], multiset{}, map[]))
  {
    var rank: map<Id, nat> := map[];
    var objs: map<Id, Obj> := map[];
    assert Ranked(objs, rank);
  }
}
