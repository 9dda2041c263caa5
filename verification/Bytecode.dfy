/** Bytecode programs: functions with effect flags, builtins, and lookup by name. */
module Bytecode {
  import opened Utf8

  /** A C string: its bytes without the terminator. */
  type Name = seq<byte>

  const MAIN: Name := [109, 97, 105, 110]

  datatype Option<T> = None | Some(value: T)

  datatype Value =
    | Unit
    | Void
    | Bool(boolean: bool)
    | Str(text: seq<byte>)
    | Bytes(data: seq<byte>)
    | Variant(tag: seq<byte>, fields: seq<Value>)
    | Iter(id: nat)
    | Other(id: nat)

  /** `awaited` tells AWAIT_CALL from CALL and AWAIT_VALUE from CALL_VALUE. */
  datatype Instruction =
    | Const(constant: Value)
    | Load(name: Name)
    | Store(name: Name)
    | Pop
    | Jump(target: nat)
    | JumpFalse(target: nat)
    | IterNext(name: Name, item: Name, target: nat)
    | Call(name: Name, arity: nat, awaited: bool)
    | CallValue(arity: nat, awaited: bool)
    | Return

  datatype Function = Function(
    name: Name, pure: bool, isAsync: bool, localEffect: bool, params: seq<Name>, ins: seq<Instruction>)

  datatype Builtin = Builtin(arity: nat, pure: bool, async: bool, local: bool)

  type Table = map<Name, Builtin>

  // ----- Lookup -----

  /** Linear lookup: the first function of that name, or the number of functions. */
  function Named(fs: seq<Function>, name: Name): (i: nat)
    ensures i <= |fs|
    ensures i < |fs| ==> fs[i].name == name
    ensures forall k :: 0 <= k < i ==> fs[k].name != name
  {
    if fs == [] then 0
    else var i := Named(fs[..|fs| - 1], name);
         if i < |fs| - 1 then i else if fs[|fs| - 1].name == name then |fs| - 1 else |fs|
  }

  predicate Ordered(fs: seq<Function>) {
    forall i :: 0 <= i < |fs| - 1 ==> Lexical(fs[i].name, fs[i + 1].name) < 0
  }

  lemma {:induction false} LexicalEqual(a: seq<int>, b: seq<int>)
    ensures Lexical(a, b) == 0 <==> a == b
    ensures Lexical(a, b) == -Lexical(b, a)
  {
    if a != [] && b != [] && a[0] == b[0] {
      LexicalEqual(a[1..], b[1..]);
      assert a == [a[0]] + a[1..] && b == [b[0]] + b[1..];
    }
  }

  lemma {:induction false} LexicalTransitive(a: seq<int>, b: seq<int>, c: seq<int>)
    requires Lexical(a, b) < 0 && Lexical(b, c) < 0
    ensures Lexical(a, c) < 0
  {
    if a != [] && b != [] && c != [] && a[0] == b[0] == c[0] {
      LexicalTransitive(a[1..], b[1..], c[1..]);
    }
  }

  lemma {:induction false} OrderedPairs(fs: seq<Function>, i: nat, j: nat)
    requires Ordered(fs) && i < j < |fs|
    ensures Lexical(fs[i].name, fs[j].name) < 0
    decreases j
  {
    assert Lexical(fs[j - 1].name, fs[j - 1 + 1].name) < 0;
    if i < j - 1 {
      OrderedPairs(fs, i, j - 1);
      LexicalTransitive(fs[i].name, fs[j - 1].name, fs[j].name);
    }
  }

  /** `program_function` after verification: binary search finds what linear lookup finds. */
  method Search(fs: seq<Function>, name: Name) returns (i: nat)
    requires Ordered(fs)
    ensures i == Named(fs, name)
  {
    hide Lexical, Ordered;
    var low, high := 0, |fs|;
    while low < high
      invariant 0 <= low <= high <= |fs|
      invariant forall k :: 0 <= k < low ==> fs[k].name != name
      invariant forall k :: high <= k < |fs| ==> fs[k].name != name
    {
      var middle := low + (high - low) / 2;
      var order := Lexical(name, fs[middle].name);
      LexicalEqual(name, fs[middle].name);
      if order == 0 {
        OthersDiffer(fs, middle);
        return middle;
      }
      if order < 0 {
        LaterDiffer(fs, name, middle);
        high := middle;
      } else {
        EarlierDiffer(fs, name, middle);
        low := middle + 1;
      }
    }
    i := |fs|;
  }

  lemma OthersDiffer(fs: seq<Function>, m: nat)
    requires Ordered(fs) && m < |fs|
    ensures forall k :: 0 <= k < |fs| && k != m ==> fs[k].name != fs[m].name
  {
    hide Lexical, Ordered;
    forall k | 0 <= k < |fs| && k != m
      ensures fs[k].name != fs[m].name
    {
      LexicalEqual(fs[k].name, fs[m].name);
      if k < m {
        OrderedPairs(fs, k, m);
      } else {
        OrderedPairs(fs, m, k);
      }
      LexicalEqual(fs[m].name, fs[k].name);
    }
  }

  lemma LaterDiffer(fs: seq<Function>, name: Name, m: nat)
    requires Ordered(fs) && m < |fs| && Lexical(name, fs[m].name) < 0
    ensures forall k :: m <= k < |fs| ==> fs[k].name != name
  {
    hide Lexical, Ordered;
    forall k | m <= k < |fs|
      ensures fs[k].name != name
    {
      if m < k {
        OrderedPairs(fs, m, k);
        LexicalTransitive(name, fs[m].name, fs[k].name);
      }
      LexicalEqual(name, fs[k].name);
    }
  }

  lemma EarlierDiffer(fs: seq<Function>, name: Name, m: nat)
    requires Ordered(fs) && m < |fs| && Lexical(name, fs[m].name) > 0
    ensures forall k :: 0 <= k <= m ==> fs[k].name != name
  {
    hide Lexical, Ordered;
    LexicalEqual(fs[m].name, name);
    forall k | 0 <= k <= m
      ensures fs[k].name != name
    {
      if k < m {
        OrderedPairs(fs, k, m);
        LexicalTransitive(fs[k].name, fs[m].name, name);
      }
      LexicalEqual(fs[k].name, name);
    }
  }
}
