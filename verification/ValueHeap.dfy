/** The value heap as src/vm/value.c implements it: counts, buffers and shared storages
    updated in place by recursive methods with loops, each proved to compute the function of
    HeapModel that specifies it. */
module ValueHeap {
  import opened HeapModel

  class Values {
    var objs: map<Id, Obj>
    ghost var held: multiset<Id>
    ghost var created: map<Id, seq<Id>>

    ghost function State(): Heap
      reads this
    {
      Heap(objs, held, created)
    }

    constructor ()
      ensures State() == Heap(map[], multiset{}, map[])
    {
      objs, held, created := map[], multiset{}, map[];
    }

    method Retain(v: Id)
      modifies this
      ensures State() == HeapModel.Retain(old(State()), v)
    {
      if v in objs {
        objs := objs[v := Obj(objs[v].refs + 1, objs[v].shape)];
        held := held + multiset{v};
      }
    }

    method RetainAll(items: seq<Id>)
      modifies this
      ensures State() == HeapModel.RetainAll(old(State()), items)
    {
      hide HeapModel.Retain;
      var i := 0;
      while i < |items|
        invariant 0 <= i <= |items|
        invariant HeapModel.RetainAll(State(), items[i..]) == HeapModel.RetainAll(old(State()), items)
      {
        Retain(items[i]);
        i := i + 1;
      }
    }

    /** Takes a dead value out; its children become the caller's to release. */
    method Unlink(v: Id) returns (owed: seq<Id>)
      requires v in objs
      modifies this
      ensures (State(), owed) == HeapModel.Unlink(old(State()), v)
    {
      var o := objs[v].shape;
      objs := objs - {v};
      held := held - multiset{v};
      created := created - {v};
      match o
      case Leaf => owed := [];
      case View(s, n) =>
        if s in objs && objs[s].shape.Storage? {
          owed := UnlinkView(s, n);
        } else {
          owed := [];
        }
      case Plain(items) => owed := items; held := held + multiset(items);
      case Named(items) => owed := items; held := held + multiset(items);
      case Opaque(items) => owed := items; held := held + multiset(items);
      case Storage(_, items) => owed := items; held := held + multiset(items);
    }

    method UnlinkView(s: Id, n: nat) returns (owed: seq<Id>)
      requires s in objs && objs[s].shape.Storage?
      modifies this
      ensures (State(), owed) == HeapModel.UnlinkView(old(State()), s, n)
    {
      var Obj(refs, Storage(capacity, items)) := objs[s];
      if refs <= 1 {
        objs := objs - {s};
        owed := items;
        held := held + multiset(items);
      } else if n == |items| && n > 0 {
        objs := objs[s := Obj(refs - 1, Storage(capacity, items[..n - 1]))];
        owed := [items[n - 1]];
        held := held + multiset{items[n - 1]};
      } else {
        objs := objs[s := Obj(refs - 1, Storage(capacity, items))];
        owed := [];
      }
    }

    /** `release`: the recursion ends because every level frees an object. */
    method Release(v: Id)
      modifies this
      ensures State() == HeapModel.Release(old(State()), v)
      decreases objs.Keys
    {
      hide HeapModel.Unlink;
      if v !in objs {
        return;
      }
      if objs[v].refs > 1 {
        objs := objs[v := Obj(objs[v].refs - 1, objs[v].shape)];
        held := held - multiset{v};
        return;
      }
      var owed := Unlink(v);
      ghost var start := State();
      var i := 0;
      while i < |owed|
        invariant 0 <= i <= |owed| && objs.Keys < old(objs.Keys)
        invariant ReleaseAll(State(), owed[i..]) == ReleaseAll(start, owed)
      {
        Release(owed[i]);
        i := i + 1;
      }
    }

    /** `append_independent`: a bounded walk along ownership edges. */
    method Independent(item: Id, target: Id, budget: nat) returns (ok: bool, left: nat)
      ensures (ok, left) == HeapModel.Independent(State(), item, target, budget)
      decreases budget, 0
    {
      ok, left := false, budget;
      if budget == 0 || item !in objs {
        return;
      }
      left := budget - 1;
      match objs[item].shape
      case Leaf => ok := true;
      case Plain(items) => ok, left := IndependentAll(items, target, left);
      case Named(items) => ok, left := IndependentAll(items, target, left);
      case View(s, _) =>
        if s != target && s in objs && objs[s].shape.Storage? {
          ok, left := IndependentAll(objs[s].shape.items, target, left);
        }
      case Opaque(_) =>
      case Storage(_, _) =>
    }

    method IndependentAll(items: seq<Id>, target: Id, budget: nat) returns (ok: bool, left: nat)
      ensures (ok, left) == HeapModel.IndependentAll(State(), items, target, budget)
      decreases budget, 1
    {
      ok, left := true, budget;
      var i := 0;
      while i < |items|
        invariant 0 <= i <= |items| && left <= budget && ok
        invariant HeapModel.IndependentAll(State(), items[i..], target, left)
               == HeapModel.IndependentAll(State(), items, target, budget)
      {
        ok, left := Independent(items[i], target, left);
        if !ok {
          return;
        }
        i := i + 1;
      }
    }

    method Elements(a: Id) returns (items: seq<Id>)
      requires IsArray(State(), a)
      ensures items == Items(State(), a)
    {
      match objs[a].shape
      case View(s, n) =>
        items := if s in objs && objs[s].shape.Storage? && n <= |objs[s].shape.items|
                 then objs[s].shape.items[..n] else [];
      case Plain(elements) => items := elements;
    }

    /** `value_array_append` */
    method Append(a: Id, item: Id, id: Id, sid: Id) returns (ok: bool)
      requires IsArray(State(), a)
      modifies this
      ensures (State(), ok) == HeapModel.Append(old(State()), a, item, id, sid)
    {
      hide HeapModel.Independent, HeapModel.RetainAll, Items;
      var items := Elements(a);
      if |items| >= LIMIT {
        return false;
      }
      var shares := false;
      if objs[a].shape.View? {
        var View(s, n) := objs[a].shape;
        if s in objs && objs[s].shape.Storage? && objs[s].refs == 1 && n < objs[s].shape.capacity {
          var independent, _ := Independent(item, s, BUDGET);
          shares := independent;
        }
      }
      if shares {
        AppendShared(a, item, id, items);
      } else {
        AppendCopied(a, item, id, sid, items);
      }
      ok := true;
    }

    method AppendShared(a: Id, item: Id, id: Id, items: seq<Id>)
      requires CanShare(State(), a, item) && items == Items(State(), a)
      modifies this
      ensures State() == HeapModel.AppendShared(old(State()), a, item, id)
    {
      hide HeapModel.Independent, Items;
      var View(s, n) := objs[a].shape;
      var Obj(refs, Storage(capacity, _)) := objs[s];
      ghost var outside := held;
      Retain(item);
      objs := objs[s := Obj(refs + 1, Storage(capacity, items + [item]))];
      objs := objs[id := Obj(1, View(s, n + 1))];
      held := outside + multiset{id};
      created := created[id := items + [item]];
    }

    method AppendCopied(a: Id, item: Id, id: Id, sid: Id, items: seq<Id>)
      requires a in objs && items == Items(State(), a)
      modifies this
      ensures State() == HeapModel.AppendCopied(old(State()), a, item, id, sid)
    {
      hide HeapModel.RetainAll, Items, IsStorage;
      var copied := items + [item];
      var count := |items|;
      var capacity := if count < 8 then 8 else if count <= LIMIT / 2 then count * 2 else LIMIT;
      RetainAll(copied);
      ghost var installed := Install(State(), sid, Storage(capacity, copied));
      objs := objs[sid := Obj(1, Storage(capacity, copied))];
      objs := objs[id := Obj(1, View(sid, count + 1))];
      held := held - multiset(copied) + multiset{id};
      created := created[id := copied];
      assert State() == installed.(objs := objs, held := held, created := created);
    }
  }
}
