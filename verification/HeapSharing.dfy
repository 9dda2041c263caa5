/** Sharing append storage cannot be told from copying, in any run. */
module HeapSharing {
  import opened HeapModel
  import opened HeapProofs
  import opened HeapAppend
  import opened HeapTheorems

  // ----- What can be observed -----

  datatype Kind = LeafKind | ArrayKind | NamedKind | OpaqueKind

  /** Plain arrays and views look alike. */
  function KindOf(o: Shape): Kind {
    match o
    case Leaf => LeafKind
    case Named(_) => NamedKind
    case Opaque(_) => OpaqueKind
    case _ => ArrayKind
  }

  datatype Seen = Seen(kind: Kind, items: seq<Id>)

  ghost function See(h: Heap, v: Id): Seen
    requires IsValue(h, v)
  {
    Seen(KindOf(h.objs[v].shape), Items(h, v))
  }

  /** Code outside the two heaps holds the same references and sees the same values. */
  ghost predicate LooksLike(h: Heap, r: Heap) {
    && (forall v :: IsValue(h, v) <==> IsValue(r, v))
    && (forall v :: IsValue(h, v) && IsValue(r, v) ==> See(h, v) == See(r, v))
    && h.held == r.held
  }

  // ----- Kinds never change -----

  /** Objects of `r` were objects of `h`, of the same shape unless they are storage. */
  ghost predicate Kept(h: Heap, r: Heap) {
    forall w :: w in r.objs ==>
      w in h.objs && (r.objs[w].shape == h.objs[w].shape || (r.objs[w].shape.Storage? && h.objs[w].shape.Storage?))
  }

  lemma KeptTwice(a: Heap, b: Heap, c: Heap)
    requires Kept(a, b) && Kept(b, c)
    ensures Kept(a, c)
  {
  }

  lemma UnlinkKept(h: Heap, v: Id)
    requires v in h.objs
    ensures Kept(h, Unlink(h, v).0)
  {
  }

  lemma {:induction false} ReleaseKept(h: Heap, v: Id)
    ensures Kept(h, Release(h, v))
    decreases h.objs.Keys, 0
  {
    hide Unlink;
    if v in h.objs && h.objs[v].refs <= 1 {
      UnlinkKept(h, v);
      var (m, owed) := Unlink(h, v);
      ReleaseAllKept(m, owed);
      KeptTwice(h, m, ReleaseAll(m, owed));
    }
  }

  lemma {:induction false} ReleaseAllKept(h: Heap, items: seq<Id>)
    ensures Kept(h, ReleaseAll(h, items))
    decreases h.objs.Keys, 1 + |items|
  {
    hide Release;
    if items != [] {
      ReleaseKept(h, items[0]);
      var m := Release(h, items[0]);
      ReleaseAllKept(m, items[1..]);
      KeptTwice(h, m, ReleaseAll(m, items[1..]));
    }
  }

  lemma {:induction false} RetainAllShapes(h: Heap, items: seq<Id>)
    ensures forall n :: n in h.objs ==> n in RetainAll(h, items).objs && RetainAll(h, items).objs[n].shape == h.objs[n].shape
    decreases |items|
  {
    if items != [] {
      RetainAllShapes(Retain(h, items[0]), items[1..]);
    }
  }

  /** Making a value changes the kind of no other. */
  ghost predicate SameKinds(h: Heap, r: Heap) {
    forall w :: w in h.objs && w in r.objs ==> KindOf(r.objs[w].shape) == KindOf(h.objs[w].shape)
  }

  lemma NewValueKinds(h: Heap, id: Id, o: Shape)
    requires id !in h.objs
    ensures SameKinds(h, NewValue(h, id, o)) && id in NewValue(h, id, o).objs && NewValue(h, id, o).objs[id].shape == o
  {
    RetainAllShapes(h, Children(o));
    hide RetainAll;
  }

  lemma SharedKinds(h: Heap, a: Id, item: Id, id: Id)
    requires CanShare(h, a, item) && id !in h.objs
    ensures var r := AppendShared(h, a, item, id);
            SameKinds(h, r) && id in r.objs && KindOf(r.objs[id].shape) == ArrayKind
  {
    hide Independent;
  }

  lemma CopiedKinds(h: Heap, a: Id, item: Id, id: Id, sid: Id)
    requires a in h.objs && id !in h.objs && sid !in h.objs && id != sid
    ensures var r := AppendCopied(h, a, item, id, sid);
            SameKinds(h, r) && id in r.objs && KindOf(r.objs[id].shape) == ArrayKind
  {
    RetainAllShapes(h, Items(h, a) + [item]);
    hide RetainAll, Items;
  }

  // ----- Two heaps in step -----

  /** The heaps agree on what is held outside, on what was made, and on kinds. */
  ghost predicate Twins(x: Heap, y: Heap) {
    && Inv(x) && Inv(y) && x.held == y.held && x.created == y.created
    && (forall v :: IsValue(x, v) && IsValue(y, v) ==> KindOf(x.objs[v].shape) == KindOf(y.objs[v].shape))
  }

  lemma ValueIsCreated(h: Heap, v: Id)
    requires Inv(h)
    ensures IsValue(h, v) <==> v in h.created
    ensures IsValue(h, v) ==> Items(h, v) == h.created[v]
  {
    hide Linked, Counted, Shared, Acyclic, Items;
  }

  lemma TwinsLookAlike(x: Heap, y: Heap)
    requires Twins(x, y)
    ensures LooksLike(x, y)
  {
    hide Inv, Items, KindOf;
    forall v
      ensures IsValue(x, v) <==> IsValue(y, v)
      ensures IsValue(x, v) && IsValue(y, v) ==> See(x, v) == See(y, v)
    {
      ValueIsCreated(x, v);
      ValueIsCreated(y, v);
    }
  }

  /** Survivors denote what they were created with. */
  ghost predicate Within(created: map<Id, seq<Id>>, whole: map<Id, seq<Id>>) {
    forall v :: v in created ==> v in whole && created[v] == whole[v]
  }

  lemma ElementInBoth(x: Heap, y: Heap, whole: map<Id, seq<Id>>, a: Id, b: Id)
    requires Inv(x) && Inv(y) && Within(x.created, whole) && Within(y.created, whole)
    requires IsValue(x, a) && IsValue(y, a) && b in Items(x, a)
    ensures IsValue(y, b)
  {
    ValueIsCreated(x, a);
    ValueIsCreated(y, a);
    InvSound(y);
    hide Inv, Sound, Items;
    ItemsAreValues(y, a, b);
  }

  lemma InvSound(h: Heap)
    requires Inv(h)
    ensures Sound(h) && forall v :: v in h.held ==> IsValue(h, v)
  {
  }

  /** What is alive follows from what is held and what was made. */
  lemma {:induction false} ChainCarries(x: Heap, y: Heap, whole: map<Id, seq<Id>>, p: seq<Id>, i: nat)
    requires Inv(x) && Inv(y) && x.held == y.held && Within(x.created, whole) && Within(y.created, whole)
    requires Chain(x, p) && p[0] in x.held && i < |p|
    ensures IsValue(y, p[i])
  {
    hide Inv, Sound, Items, Within;
    InvSound(y);
    if i > 0 {
      ChainCarries(x, y, whole, p, i - 1);
      ChainIsLive(x, p, i - 1);
      assert p[i - 1 + 1] in Items(x, p[i - 1]);
      ElementInBoth(x, y, whole, p[i - 1], p[i]);
    }
  }

  lemma LiveInBoth(x: Heap, y: Heap, whole: map<Id, seq<Id>>, v: Id)
    requires Inv(x) && Inv(y) && x.held == y.held && Within(x.created, whole) && Within(y.created, whole)
    requires IsValue(x, v)
    ensures IsValue(y, v)
  {
    hide Inv, Within, Items;
    ExactlyAccessibleIsLive(x, v);
    var p :| Chain(x, p) && p[0] in x.held && p[|p| - 1] == v;
    ChainCarries(x, y, whole, p, |p| - 1);
  }

  lemma SameCreated(x: Heap, y: Heap, whole: map<Id, seq<Id>>)
    requires Inv(x) && Inv(y) && x.held == y.held && Within(x.created, whole) && Within(y.created, whole)
    ensures x.created == y.created
  {
    hide Inv;
    forall v
      ensures v in x.created <==> v in y.created
    {
      ValueIsCreated(x, v);
      ValueIsCreated(y, v);
      if v in x.created {
        LiveInBoth(x, y, whole, v);
      }
      if v in y.created {
        LiveInBoth(y, x, whole, v);
      }
    }
  }

  // ----- Steps -----

  /** The same call with an append that never shares. */
  ghost function Copying(h: Heap, c: HeapCall): Heap
    requires Allowed(h, c)
  {
    match c
    case AppendValue(a, item, id, sid) =>
      if |Items(h, a)| >= LIMIT then h else AppendCopied(h, a, item, id, sid)
    case _ => Apply(h, c)
  }

  /** The names that the call may give to new objects are unused. */
  ghost predicate FreshNames(h: Heap, c: HeapCall) {
    match c
    case MakeValue(id, _) => id !in h.objs
    case AppendValue(_, _, id, sid) => id !in h.objs && sid !in h.objs && id != sid
    case _ => true
  }

  lemma SameValue(x: Heap, y: Heap, v: Id)
    requires Twins(x, y)
    ensures IsValue(x, v) <==> IsValue(y, v)
    ensures IsArray(x, v) <==> IsArray(y, v)
  {
    ValueIsCreated(x, v);
    ValueIsCreated(y, v);
    hide Inv, Items;
  }

  lemma SameAllowed(x: Heap, y: Heap, c: HeapCall)
    requires Twins(x, y) && Allowed(x, c) && FreshNames(y, c)
    ensures Allowed(y, c)
  {
    hide Inv, Items, IsValue, IsArray, KindOf;
    match c {
      case MakeValue(_, o) =>
        forall i | 0 <= i < |Children(o)|
          ensures IsValue(y, Children(o)[i])
        {
          SameValue(x, y, Children(o)[i]);
        }
      case RetainValue(v) => SameValue(x, y, v);
      case ReleaseValue(_) =>
      case AppendValue(a, item, _, _) =>
        SameValue(x, y, a);
        SameValue(x, y, item);
    }
  }

  lemma MadeTwins(x: Heap, y: Heap, r: Heap, q: Heap, id: Id, denotes: seq<Id>)
    requires Twins(x, y) && Made(x, r, id, denotes) && Made(y, q, id, denotes)
    requires SameKinds(x, r) && SameKinds(y, q)
    requires id in r.objs && id in q.objs && KindOf(r.objs[id].shape) == KindOf(q.objs[id].shape)
    ensures Twins(r, q)
  {
    hide Inv, KindOf;
    forall v | IsValue(r, v) && IsValue(q, v)
      ensures KindOf(r.objs[v].shape) == KindOf(q.objs[v].shape)
    {
      if v != id {
        ValueIsCreated(r, v);
        ValueIsCreated(x, v);
        ValueIsCreated(y, v);
      }
    }
  }

  lemma ReleaseTwins(x: Heap, y: Heap, v: Id)
    requires Twins(x, y) && v in x.held
    ensures Twins(Release(x, v), Release(y, v))
  {
    hide Inv, Release, KindOf;
    ReleaseWorks(x, v);
    ReleaseWorks(y, v);
    ReleaseKept(x, v);
    ReleaseKept(y, v);
    SameCreated(Release(x, v), Release(y, v), x.created);
  }

  lemma RetainTwins(x: Heap, y: Heap, v: Id)
    requires Twins(x, y) && IsValue(x, v) && IsValue(y, v)
    ensures Twins(Retain(x, v), Retain(y, v))
  {
    RetainWorks(x, v);
    RetainWorks(y, v);
    hide Inv, KindOf;
  }

  lemma AppendTwins(x: Heap, y: Heap, a: Id, item: Id, id: Id, sid: Id)
    requires Twins(x, y) && Allowed(x, AppendValue(a, item, id, sid)) && Allowed(y, AppendValue(a, item, id, sid))
    ensures Twins(Append(x, a, item, id, sid).0, Copying(y, AppendValue(a, item, id, sid)))
  {
    ValueIsCreated(x, a);
    ValueIsCreated(y, a);
    hide Inv, Items, Made, AppendCopied, SameKinds, KindOf, Append;
    AppendWorks(x, a, item, id, sid);
    AppendIs(x, a, item, id, sid);
    if |Items(y, a)| < LIMIT {
      AppendCopiedWorks(y, a, item, id, sid);
      CopiedKinds(y, a, item, id, sid);
      MadeTwins(x, y, Append(x, a, item, id, sid).0, AppendCopied(y, a, item, id, sid), id, Items(x, a) + [item]);
    }
  }

  lemma AppendIs(h: Heap, a: Id, item: Id, id: Id, sid: Id)
    requires Allowed(h, AppendValue(a, item, id, sid))
    ensures var r := Append(h, a, item, id, sid).0;
            if |Items(h, a)| < LIMIT then SameKinds(h, r) && id in r.objs && KindOf(r.objs[id].shape) == ArrayKind else r == h
  {
    hide Items, AppendShared, AppendCopied, SameKinds, KindOf, CanShare;
    CopiedKinds(h, a, item, id, sid);
    if CanShare(h, a, item) {
      SharedKinds(h, a, item, id);
    }
  }

  /** One call keeps the two heaps in step. */
  lemma StepTwins(x: Heap, y: Heap, c: HeapCall)
    requires Twins(x, y) && Allowed(x, c) && Allowed(y, c)
    ensures Twins(Apply(x, c), Copying(y, c))
  {
    hide Inv, Append, Release, Retain, NewValue, Made, SameKinds, KindOf, Items, Twins;
    match c {
      case MakeValue(id, o) =>
        assert Inv(x) && Inv(y) by { TwinsInv(x, y); }
        NewValueWorks(x, id, o);
        NewValueWorks(y, id, o);
        NewValueKinds(x, id, o);
        NewValueKinds(y, id, o);
        MadeTwins(x, y, NewValue(x, id, o), NewValue(y, id, o), id, Children(o));
      case RetainValue(v) => RetainTwins(x, y, v);
      case ReleaseValue(v) => ReleaseTwins(x, y, v);
      case AppendValue(a, item, id, sid) => AppendTwins(x, y, a, item, id, sid);
    }
  }

  lemma TwinsInv(x: Heap, y: Heap)
    requires Twins(x, y)
    ensures Inv(x) && Inv(y)
  {
  }

  // ----- Runs -----

  /** The same calls, run with the sharing append and with the copying one. Only the calls of the
      first run are required to be allowed. */
  ghost predicate BothReached(calls: seq<HeapCall>, x: Heap, y: Heap)
    decreases |calls|
  {
    if calls == [] then x == y == Heap(map[], multiset{}, map[])
    else
      var n := |calls| - 1;
      exists g, h :: BothReached(calls[..n], g, h) && Allowed(g, calls[n]) && FreshNames(h, calls[n])
                     && x == Apply(g, calls[n]) && (Allowed(h, calls[n]) ==> y == Copying(h, calls[n]))
  }

  /** Every list of calls allowed with sharing is allowed with copying, and after each of them the
      two heaps look the same from outside. */
  lemma {:induction false} SharingInvisible(calls: seq<HeapCall>, x: Heap, y: Heap)
    requires BothReached(calls, x, y)
    ensures Twins(x, y) && LooksLike(x, y)
    ensures forall c :: Allowed(x, c) && FreshNames(y, c) ==> Allowed(y, c)
    decreases |calls|
  {
    hide Inv, Apply, Copying, Allowed, FreshNames, LooksLike, Twins;
    if calls == [] {
      EmptyTwins();
    } else {
      var n := |calls| - 1;
      var g, h :| BothReached(calls[..n], g, h) && Allowed(g, calls[n]) && FreshNames(h, calls[n])
                  && x == Apply(g, calls[n]) && (Allowed(h, calls[n]) ==> y == Copying(h, calls[n]));
      SharingInvisible(calls[..n], g, h);
      StepTwins(g, h, calls[n]);
    }
    TwinsLookAlike(x, y);
    forall c | Allowed(x, c) && FreshNames(y, c)
      ensures Allowed(y, c)
    {
      SameAllowed(x, y, c);
    }
  }

  lemma EmptyTwins()
    ensures Twins(Heap(map[], multiset{}, map[]), Heap(map[], multiset{}, map[]))
  {
    EmptyWorks();
  }
}
