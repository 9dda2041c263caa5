/** The static effect check of bytecode programs. */
module Effects {
  import opened Bytecode
  import opened Utf8

  // ----- One call -----

  datatype Target = Target(pure: bool, async: bool, local: bool)

  function FunctionTarget(f: Function): Target {
    Target(f.pure, f.isAsync, f.localEffect)
  }

  function BuiltinTarget(b: Builtin): Target {
    Target(b.pure, b.async, b.local)
  }

  /** `verify_call_edge` */
  predicate CallEdge(caller: Function, t: Target, awaited: bool) {
    if awaited then caller.isAsync && !caller.pure && t.async
    else if caller.pure then !t.async && t.pure
    else !t.async && (!(caller.isAsync || caller.localEffect) || t.pure || t.local)
  }

  /** How far the effect of a callee reaches: not at all, to local state, or anywhere. */
  function Reach(t: Target): nat {
    if t.pure then 0 else if t.local then 1 else 2
  }

  function Allowance(caller: Function): nat {
    if caller.pure then 0 else if caller.isAsync || caller.localEffect then 1 else 2
  }

  /** A plain call reaches no further than its caller may and an awaited one joins asynchronous
      code; the two kinds never mix, and a pure function awaits nothing. */
  lemma CallEdgeIsReach(caller: Function, t: Target, awaited: bool)
    ensures CallEdge(caller, t, awaited) <==>
              && awaited == t.async
              && (if awaited then caller.isAsync && !caller.pure else Reach(t) <= Allowance(caller))
  {
  }

  // ----- Local effects -----

  predicate PureTarget(table: Table, fs: seq<Function>, name: Name) {
    if name in table then table[name].pure else Named(fs, name) < |fs| && fs[Named(fs, name)].pure
  }

  /** The target of a call keeps to local state, given the functions known to. */
  predicate LocalTarget(table: Table, fs: seq<Function>, locals: set<nat>, name: Name) {
    if name in table then table[name].local else Named(fs, name) < |fs| && Named(fs, name) in locals
  }

  predicate Harmless(table: Table, fs: seq<Function>, locals: set<nat>, ins: Instruction) {
    && !ins.CallValue?
    && (ins.Call? ==> !ins.awaited && (PureTarget(table, fs, ins.name) || LocalTarget(table, fs, locals, ins.name)))
  }

  predicate Touches(table: Table, fs: seq<Function>, locals: set<nat>, ins: Instruction) {
    ins.Call? && LocalTarget(table, fs, locals, ins.name)
  }

  /** Function `i` has only a local effect, given the functions known to. */
  predicate Local(table: Table, fs: seq<Function>, locals: set<nat>, i: nat)
    requires i < |fs|
  {
    && !fs[i].pure && !fs[i].isAsync
    && (forall j :: 0 <= j < |fs[i].ins| ==> Harmless(table, fs, locals, fs[i].ins[j]))
    && (exists j :: 0 <= j < |fs[i].ins| && Touches(table, fs, locals, fs[i].ins[j]))
  }

  ghost predicate Closed(table: Table, fs: seq<Function>, locals: set<nat>) {
    forall i :: 0 <= i < |fs| && Local(table, fs, locals, i) ==> i in locals
  }

  /** The least set of functions that contains every function with only a local effect. */
  ghost predicate Least(table: Table, fs: seq<Function>, locals: set<nat>) {
    && Closed(table, fs, locals)
    && (forall i :: i in locals ==> i < |fs|)
    && (forall s: set<nat> :: Closed(table, fs, s) ==> locals <= s)
  }

  function Flagged(fs: seq<Function>): set<nat> {
    set i: nat | i < |fs| && fs[i].localEffect
  }

  predicate SameCode(a: seq<Function>, b: seq<Function>) {
    |a| == |b| && forall i :: 0 <= i < |a| ==> a[i].(localEffect := false) == b[i].(localEffect := false)
  }

  lemma SameNames(a: seq<Function>, b: seq<Function>, name: Name)
    requires SameCode(a, b)
    ensures Named(a, name) == Named(b, name)
  {
    forall k | 0 <= k < |a|
      ensures a[k].name == b[k].name
    {
      assert a[k].(localEffect := false) == b[k].(localEffect := false);
    }
  }

  /** More known functions make no function less local. */
  lemma LocalMonotone(table: Table, fs: seq<Function>, s: set<nat>, s': set<nat>, i: nat)
    requires i < |fs| && s <= s' && Local(table, fs, s, i)
    ensures Local(table, fs, s', i)
  {
    hide PureTarget;
    forall j | 0 <= j < |fs[i].ins|
      ensures Harmless(table, fs, s', fs[i].ins[j])
    {
      assert Harmless(table, fs, s, fs[i].ins[j]);
    }
    var j :| 0 <= j < |fs[i].ins| && Touches(table, fs, s, fs[i].ins[j]);
    assert Touches(table, fs, s', fs[i].ins[j]);
  }

  lemma StillClosed(table: Table, fs: seq<Function>, locals: set<nat>, i: nat)
    requires Closed(table, fs, locals) && i < |fs| && !Local(table, fs, locals, i)
    ensures Closed(table, fs, locals - {i})
  {
    hide Local;
    forall k | 0 <= k < |fs| && Local(table, fs, locals - {i}, k)
      ensures k in locals - {i}
    {
      LocalMonotone(table, fs, locals - {i}, locals, k);
    }
  }

  /** The functions of the least set have only a local effect themselves. */
  lemma LeastIsLocal(table: Table, fs: seq<Function>, locals: set<nat>, i: nat)
    requires Least(table, fs, locals) && i in locals
    ensures i < |fs| && Local(table, fs, locals, i)
  {
    hide Local;
    if !Local(table, fs, locals, i) {
      StillClosed(table, fs, locals, i);
    }
  }

  /** The inferred flag is enough: a function that carries it may make all of its plain calls. */
  lemma InferredCallsPass(table: Table, fs: seq<Function>, i: nat, j: nat)
    requires Least(table, fs, Flagged(fs)) && i < |fs| && fs[i].localEffect && j < |fs[i].ins| && fs[i].ins[j].Call?
    requires Known(table, fs, fs[i].ins[j].name) && !TargetOf(table, fs, fs[i].ins[j].name).async
    ensures CallEdge(fs[i], TargetOf(table, fs, fs[i].ins[j].name), fs[i].ins[j].awaited)
  {
    hide Least;
    LeastIsLocal(table, fs, Flagged(fs), i);
    assert Harmless(table, fs, Flagged(fs), fs[i].ins[j]);
  }

  lemma SameLocal(table: Table, a: seq<Function>, b: seq<Function>, s: set<nat>, i: nat)
    requires SameCode(a, b) && i < |a| && Local(table, a, s, i)
    ensures Local(table, b, s, i)
  {
    hide PureTarget, LocalTarget;
    assert a[i].(localEffect := false) == b[i].(localEffect := false);
    forall j | 0 <= j < |b[i].ins|
      ensures Harmless(table, b, s, b[i].ins[j])
    {
      assert Harmless(table, a, s, a[i].ins[j]);
      if a[i].ins[j].Call? {
        SameTarget(table, a, b, s, a[i].ins[j].name);
      }
    }
    var j :| 0 <= j < |a[i].ins| && Touches(table, a, s, a[i].ins[j]);
    SameTarget(table, a, b, s, a[i].ins[j].name);
    assert Touches(table, b, s, b[i].ins[j]);
  }

  lemma SameTarget(table: Table, a: seq<Function>, b: seq<Function>, s: set<nat>, name: Name)
    requires SameCode(a, b)
    ensures PureTarget(table, a, name) == PureTarget(table, b, name)
    ensures LocalTarget(table, a, s, name) == LocalTarget(table, b, s, name)
  {
    SameNames(a, b, name);
    var k := Named(a, name);
    if k < |a| {
      assert a[k].(localEffect := false) == b[k].(localEffect := false);
    }
  }

  lemma SameClosed(table: Table, a: seq<Function>, b: seq<Function>, s: set<nat>)
    requires SameCode(a, b) && Closed(table, a, s)
    ensures Closed(table, b, s)
  {
    hide Local;
    forall i | 0 <= i < |b| && Local(table, b, s, i)
      ensures i in s
    {
      SameLocal(table, b, a, s, i);
    }
  }

  /** The result does not depend on the flags that were there before. */
  lemma FlagsIrrelevant(table: Table, a: seq<Function>, b: seq<Function>, la: set<nat>, lb: set<nat>)
    requires SameCode(a, b) && Least(table, a, la) && Least(table, b, lb)
    ensures la == lb
  {
    hide Closed;
    SameClosed(table, a, b, la);
    SameClosed(table, b, a, lb);
  }

  predicate Distinct(fs: seq<Function>) {
    forall i, j :: 0 <= i < j < |fs| ==> fs[i].name != fs[j].name
  }

  /** Both programs have the same functions, in some order, whatever their flags. */
  ghost predicate SameFunctions(a: seq<Function>, b: seq<Function>) {
    forall i :: 0 <= i < |a| ==> Named(b, a[i].name) < |b|
                                 && b[Named(b, a[i].name)].(localEffect := false) == a[i].(localEffect := false)
  }

  function Names(fs: seq<Function>, locals: set<nat>): set<Name> {
    set i: nat | i in locals && i < |fs| :: fs[i].name
  }

  /** The result does not depend on the order of distinctly named functions. */
  lemma OrderIndependent(table: Table, a: seq<Function>, b: seq<Function>, la: set<nat>, lb: set<nat>)
    requires Distinct(a) && Distinct(b) && SameFunctions(a, b) && SameFunctions(b, a)
    requires Least(table, a, la) && Least(table, b, lb)
    ensures Names(a, la) == Names(b, lb)
  {
    SomeOrder(table, a, b, la, lb);
    SomeOrder(table, b, a, lb, la);
  }

  lemma SomeOrder(table: Table, a: seq<Function>, b: seq<Function>, la: set<nat>, lb: set<nat>)
    requires Distinct(a) && Distinct(b) && SameFunctions(a, b) && SameFunctions(b, a)
    requires Least(table, a, la) && Least(table, b, lb)
    ensures Names(b, lb) <= Names(a, la)
  {
    var s := set j: nat | j < |b| && b[j].name in Names(a, la);
    hide Local;
    forall j | 0 <= j < |b| && Local(table, b, s, j)
      ensures j in s
    {
      var i := Named(a, b[j].name);
      Transfer(table, a, b, la, s, i, j);
      assert i in la;
    }
    assert Closed(table, b, s);
  }

  lemma Transfer(table: Table, a: seq<Function>, b: seq<Function>, la: set<nat>, s: set<nat>, i: nat, j: nat)
    requires Distinct(a) && Distinct(b) && SameFunctions(a, b) && SameFunctions(b, a)
    requires s == set j: nat | j < |b| && b[j].name in Names(a, la)
    requires j < |b| && i == Named(a, b[j].name) && Local(table, b, s, j)
    ensures i < |a| && Local(table, a, la, i)
  {
    assert a[i].(localEffect := false) == b[j].(localEffect := false);
    hide Harmless, Touches, SameFunctions, Distinct;
    forall k | 0 <= k < |a[i].ins|
      ensures Harmless(table, a, la, a[i].ins[k])
    {
      assert Harmless(table, b, s, b[j].ins[k]);
      TransferInstruction(table, a, b, la, s, b[j].ins[k]);
    }
    var k :| 0 <= k < |b[j].ins| && Touches(table, b, s, b[j].ins[k]);
    TransferInstruction(table, a, b, la, s, b[j].ins[k]);
    assert Touches(table, a, la, a[i].ins[k]);
  }

  lemma TransferInstruction(table: Table, a: seq<Function>, b: seq<Function>, la: set<nat>, s: set<nat>, ins: Instruction)
    requires Distinct(a) && Distinct(b) && SameFunctions(a, b) && SameFunctions(b, a)
    requires s == set j: nat | j < |b| && b[j].name in Names(a, la)
    ensures Harmless(table, b, s, ins) ==> Harmless(table, a, la, ins)
    ensures Touches(table, b, s, ins) ==> Touches(table, a, la, ins)
  {
    hide PureTarget, LocalTarget, SameFunctions, Distinct;
    if ins.Call? {
      TransferTarget(table, a, b, la, s, ins.name);
    }
  }

  lemma TransferTarget(table: Table, a: seq<Function>, b: seq<Function>, la: set<nat>, s: set<nat>, name: Name)
    requires Distinct(a) && Distinct(b) && SameFunctions(a, b) && SameFunctions(b, a)
    requires s == set j: nat | j < |b| && b[j].name in Names(a, la)
    ensures PureTarget(table, b, name) ==> PureTarget(table, a, name)
    ensures LocalTarget(table, b, s, name) ==> LocalTarget(table, a, la, name)
  {
    var j := Named(b, name);
    if name !in table && j < |b| {
      var i := Named(a, name);
      assert a[i].(localEffect := false) == b[j].(localEffect := false);
      if j in s {
        var k :| k in la && k < |a| && a[k].name == name;
        assert k == i;
      }
    }
  }

  // ----- Verification -----

  predicate DistinctNames(names: seq<Name>) {
    forall a, b :: 0 <= a < b < |names| ==> names[a] != names[b]
  }

  predicate Known(table: Table, fs: seq<Function>, name: Name) {
    name in table || Named(fs, name) < |fs|
  }

  /** A builtin hides a function of the same name. */
  function ArityOf(table: Table, fs: seq<Function>, name: Name): nat
    requires Known(table, fs, name)
  {
    if name in table then table[name].arity else |fs[Named(fs, name)].params|
  }

  function TargetOf(table: Table, fs: seq<Function>, name: Name): Target
    requires Known(table, fs, name)
  {
    if name in table then BuiltinTarget(table[name]) else FunctionTarget(fs[Named(fs, name)])
  }

  predicate InstructionOk(table: Table, fs: seq<Function>, f: Function, ins: Instruction) {
    && (ins.Jump? || ins.JumpFalse? || ins.IterNext? ==> ins.target < |f.ins|)
    && (ins.CallValue? && ins.awaited ==> f.isAsync)
    && (ins.Call? ==> Known(table, fs, ins.name) && ins.arity == ArityOf(table, fs, ins.name)
                      && CallEdge(f, TargetOf(table, fs, ins.name), ins.awaited))
  }

  predicate FunctionOk(table: Table, fs: seq<Function>, i: nat)
    requires i < |fs|
  {
    && !(fs[i].pure && fs[i].isAsync) && fs[i].name != []
    && (i > 0 ==> Lexical(fs[i - 1].name, fs[i].name) < 0)
    && DistinctNames(fs[i].params)
    && (forall j :: 0 <= j < |fs[i].ins| ==> InstructionOk(table, fs, fs[i], fs[i].ins[j]))
    && (exists j :: 0 <= j < |fs[i].ins| && fs[i].ins[j].Return?)
  }

  predicate Verified(table: Table, fs: seq<Function>) {
    && Named(fs, MAIN) < |fs| && fs[Named(fs, MAIN)].params == []
    && (forall i :: 0 <= i < |fs| ==> FunctionOk(table, fs, i))
  }

  lemma VerifiedIsOrdered(table: Table, fs: seq<Function>)
    requires Verified(table, fs)
    ensures Ordered(fs)
  {
    hide Lexical;
    forall i | 0 <= i < |fs| - 1
      ensures Lexical(fs[i].name, fs[i + 1].name) < 0
    {
      assert FunctionOk(table, fs, i + 1);
    }
  }

  // ----- The program object -----

  datatype Error =
    | NoMain
    | MainHasParameters
    | BadSignature
    | BadOrder
    | EmptyFunction
    | BadJump
    | BadAsync
    | UnknownCall
    | ArityMismatch
    | PureCallsImpure
    | BadEffect
    | NoReturn

  class Program {
    const table: Table
    var functions: seq<Function>
    var ordered: bool

    constructor (table: Table, functions: seq<Function>)
      ensures this.table == table && this.functions == functions && !ordered
    {
      this.table, this.functions, this.ordered := table, functions, false;
    }

    /** One look at function `i`: whether its calls are all pure or local, and one is local. */
    method Scan(i: nat, ghost base: seq<Function>) returns (local: bool)
      requires i < |functions| && SameCode(functions, base) && !functions[i].pure && !functions[i].isAsync
      ensures local <==> Local(table, base, Flagged(functions), i)
    {
      var ins := functions[i].ins;
      ghost var flags := Flagged(functions);
      assert functions[i].(localEffect := false) == base[i].(localEffect := false);
      var safe := true;
      local := false;
      var j := 0;
      while j < |ins| && safe
        invariant 0 <= j <= |ins|
        invariant safe <==> forall k :: 0 <= k < j ==> Harmless(table, base, flags, ins[k])
        invariant safe ==> (local <==> exists k :: 0 <= k < j && Touches(table, base, flags, ins[k]))
      {
        var isPure, resource := true, false;
        if ins[j].CallValue? || (ins[j].Call? && ins[j].awaited) {
          safe := false;
        } else if ins[j].Call? {
          isPure, resource := Look(ins[j].name, base);
          safe := isPure || resource;
          local := local || resource;
        }
        j := j + 1;
      }
      local := safe && local;
    }

    method Look(name: Name, ghost base: seq<Function>) returns (isPure: bool, resource: bool)
      requires SameCode(functions, base)
      ensures isPure == PureTarget(table, base, name)
      ensures resource == LocalTarget(table, base, Flagged(functions), name)
    {
      if name in table {
        return table[name].pure, table[name].local;
      }
      SameNames(functions, base, name);
      var k := Named(functions, name);
      if k == |functions| {
        return false, false;
      }
      assert functions[k].(localEffect := false) == base[k].(localEffect := false);
      return functions[k].pure, functions[k].localEffect;
    }

    /** The flags set so far are forced. */
    ghost predicate Forced(base: seq<Function>)
      reads this
    {
      SameCode(functions, base) && forall s: set<nat> :: Closed(table, base, s) ==> Flagged(functions) <= s
    }

    /** One round over all functions. */
    method Round(ghost base: seq<Function>) returns (changed: bool)
      requires Forced(base)
      modifies this`functions
      ensures Forced(base)
      ensures changed ==> |Flagged(functions)| > |old(Flagged(functions))|
      ensures !changed ==> functions == old(functions) && Closed(table, base, Flagged(functions))
    {
      hide Local;
      changed := false;
      var i := 0;
      while i < |functions|
        invariant 0 <= i <= |functions| && Forced(base)
        invariant changed ==> old(Flagged(functions)) < Flagged(functions)
        invariant !changed ==> functions == old(functions)
        invariant !changed ==> forall k :: 0 <= k < i && Local(table, base, Flagged(functions), k) ==> k in Flagged(functions)
      {
        if functions[i].pure || functions[i].isAsync || functions[i].localEffect {
          NotLocal(table, functions, base, Flagged(functions), i);
        } else {
          var local := Scan(i, base);
          if local {
            SetFlag(table, functions, base, i);
            functions := functions[i := functions[i].(localEffect := true)];
            changed := true;
          }
        }
        i := i + 1;
      }
      if changed {
        Growth(old(Flagged(functions)), Flagged(functions));
      }
    }

    /** `infer_local_effects`: the least set, whatever the flags were before. */
    method InferLocalEffects()
      modifies this`functions
      ensures SameCode(functions, old(functions))
      ensures Least(table, old(functions), Flagged(functions))
    {
      ghost var base := functions;
      var i := 0;
      while i < |functions|
        invariant 0 <= i <= |functions| && SameCode(functions, base)
        invariant forall k :: 0 <= k < i ==> !functions[k].localEffect
      {
        functions := functions[i := functions[i].(localEffect := false)];
        i := i + 1;
      }
      assert Flagged(functions) == {};
      var changed := true;
      while changed
        invariant Forced(base)
        invariant !changed ==> Closed(table, base, Flagged(functions))
        decreases |functions| - |Flagged(functions)|, changed
      {
        changed := Round(base);
        FlaggedBound(functions);
      }
    }

    /** Checks one instruction of function `i`. */
    method VerifyInstruction(i: nat, ins: Instruction) returns (error: Option<Error>)
      requires i < |functions| && !ordered
      ensures error.None? <==> InstructionOk(table, functions, functions[i], ins)
    {
      var f := functions[i];
      if (ins.Jump? || ins.JumpFalse? || ins.IterNext?) && ins.target >= |f.ins| {
        return Some(BadJump);
      }
      if ins.CallValue? && ins.awaited && !f.isAsync {
        return Some(BadAsync);
      }
      if ins.Call? {
        if !Known(table, functions, ins.name) {
          return Some(UnknownCall);
        }
        if ins.arity != ArityOf(table, functions, ins.name) {
          return Some(ArityMismatch);
        }
        if !CallEdge(f, TargetOf(table, functions, ins.name), ins.awaited) {
          return Some(if f.pure then PureCallsImpure else BadEffect);
        }
      }
      error := None;
    }

    method VerifyFunction(i: nat) returns (error: Option<Error>)
      requires i < |functions| && !ordered
      ensures error.None? <==> FunctionOk(table, functions, i)
    {
      hide Lexical, InstructionOk;
      var f := functions[i];
      if (f.pure && f.isAsync) || f.name == [] {
        return Some(BadSignature);
      }
      if i > 0 && Lexical(functions[i - 1].name, f.name) >= 0 {
        return Some(BadOrder);
      }
      var a := 0;
      while a < |f.params|
        invariant 0 <= a <= |f.params|
        invariant forall x, y :: 0 <= x < a && x < y < |f.params| ==> f.params[x] != f.params[y]
      {
        var b := a + 1;
        while b < |f.params|
          invariant a < b <= |f.params| && forall y :: a < y < b ==> f.params[a] != f.params[y]
        {
          if f.params[a] == f.params[b] {
            return Some(BadSignature);
          }
          b := b + 1;
        }
        a := a + 1;
      }
      if f.ins == [] {
        return Some(EmptyFunction);
      }
      var returned := false;
      var j := 0;
      while j < |f.ins|
        invariant 0 <= j <= |f.ins|
        invariant returned <==> exists k :: 0 <= k < j && f.ins[k].Return?
        invariant forall k :: 0 <= k < j ==> InstructionOk(table, functions, f, f.ins[k])
      {
        if f.ins[j].Return? {
          returned := true;
        }
        var problem := VerifyInstruction(i, f.ins[j]);
        if problem.Some? {
          return problem;
        }
        j := j + 1;
      }
      error := if returned then None else Some(NoReturn);
    }

    /** `verify` accepts exactly the programs that are in order with the inferred effects. */
    method Verify() returns (error: Option<Error>)
      modifies this
      ensures SameCode(functions, old(functions)) && Least(table, old(functions), Flagged(functions))
      ensures error.None? <==> Verified(table, functions)
      ensures ordered <==> error.None?
    {
      hide FunctionOk, Least, SameCode;
      ordered := false;
      InferLocalEffects();
      label Inferred:
      var main := Named(functions, MAIN);
      if main == |functions| {
        return Some(NoMain);
      }
      if functions[main].params != [] {
        return Some(MainHasParameters);
      }
      var i := 0;
      while i < |functions|
        invariant 0 <= i <= |functions| && !ordered && functions == old@Inferred(functions)
        invariant forall k :: 0 <= k < i ==> FunctionOk(table, functions, k)
      {
        var problem := VerifyFunction(i);
        if problem.Some? {
          return problem;
        }
        i := i + 1;
      }
      ordered := true;
      error := None;
    }
  }

  lemma NotLocal(table: Table, fs: seq<Function>, base: seq<Function>, flags: set<nat>, i: nat)
    requires i < |fs| && SameCode(fs, base) && (fs[i].pure || fs[i].isAsync || i in flags)
    ensures Local(table, base, flags, i) ==> i in flags
  {
    assert fs[i].(localEffect := false) == base[i].(localEffect := false);
  }

  lemma SetFlag(table: Table, fs: seq<Function>, base: seq<Function>, i: nat)
    requires i < |fs| && SameCode(fs, base) && !fs[i].localEffect && Local(table, base, Flagged(fs), i)
    requires forall s: set<nat> :: Closed(table, base, s) ==> Flagged(fs) <= s
    ensures var next := fs[i := fs[i].(localEffect := true)];
            Flagged(next) == Flagged(fs) + {i} && Flagged(fs) < Flagged(next) && SameCode(next, base)
            && forall s: set<nat> :: Closed(table, base, s) ==> Flagged(next) <= s
  {
    hide Local;
    assert i !in Flagged(fs);
    var next := fs[i := fs[i].(localEffect := true)];
    assert Flagged(next) == Flagged(fs) + {i};
    assert SameCode(next, base) by {
      forall k | 0 <= k < |fs|
        ensures next[k].(localEffect := false) == base[k].(localEffect := false)
      {
        assert fs[k].(localEffect := false) == base[k].(localEffect := false);
      }
    }
    forall s: set<nat> | Closed(table, base, s)
      ensures Flagged(next) <= s
    {
      LocalMonotone(table, base, Flagged(fs), s, i);
    }
  }

  lemma Growth(a: set<nat>, b: set<nat>)
    requires a < b
    ensures |a| < |b|
  {
    assert b == a + (b - a);
    assert |b - a| > 0;
  }

  lemma {:induction false} FlaggedBound(fs: seq<Function>)
    ensures |Flagged(fs)| <= |fs|
  {
    if fs != [] {
      var n := |fs| - 1;
      FlaggedBound(fs[..n]);
      assert Flagged(fs) <= Flagged(fs[..n]) + {n};
      Within(Flagged(fs), Flagged(fs[..n]), n);
    } else {
      assert Flagged(fs) == {};
    }
  }

  lemma Within(a: set<nat>, b: set<nat>, n: nat)
    requires a <= b + {n}
    ensures |a| <= |b| + 1
  {
    var c := a - {n};
    assert c <= b;
    assert b == c + (b - c);
    assert a <= c + {n};
    assert n in a ==> a == c + {n};
    assert n !in a ==> a == c;
  }
}
