/** What holds at every step of every run of the interpreter. */
module InterpreterProofs {
  import opened Utf8
  import opened Bytecode
  import opened Effects
  import opened Interpreter

  // ----- Effects on the call stack -----

  predicate Ordinary(f: Function) {
    !f.pure && !f.isAsync && !f.localEffect
  }

  predicate OrdinaryBuiltin(b: Builtin) {
    !b.pure && !b.async && !b.local
  }

  /** A frame may stand on another one: some call, awaited or not, is allowed. */
  predicate Link(caller: Function, callee: Function) {
    CallEdge(caller, FunctionTarget(callee), false) || CallEdge(caller, FunctionTarget(callee), true)
  }

  predicate KnownFrames(p: Image, frames: seq<Frame>) {
    forall i :: 0 <= i < |frames| ==> frames[i].fn < |p.fs|
  }

  predicate Linked(p: Image, frames: seq<Frame>)
    requires KnownFrames(p, frames)
  {
    forall i :: 0 <= i < |frames| - 1 ==> Link(p.fs[frames[i].fn], p.fs[frames[i + 1].fn])
  }

  predicate StackOk(p: Image, m: Machine) {
    && KnownFrames(p, m.frames) && Linked(p, m.frames)
    && (m.frames != [] <==> m.status.Yielded? || m.status.Waiting?)
  }

  /** Linked frames depend on the functions only. */
  lemma SameCodeLinked(p: Image, a: seq<Frame>, b: seq<Frame>)
    requires |a| == |b| && (forall i :: 0 <= i < |a| ==> a[i].fn == b[i].fn)
    requires KnownFrames(p, a) && Linked(p, a)
    ensures KnownFrames(p, b) && Linked(p, b)
  {
    hide Link;
    forall i | 0 <= i < |b| - 1
      ensures Link(p.fs[b[i].fn], p.fs[b[i + 1].fn])
    {
      assert Link(p.fs[a[i].fn], p.fs[a[i + 1].fn]);
    }
  }

  lemma PushLinked(p: Image, a: seq<Frame>, g: Frame)
    requires a != [] && KnownFrames(p, a) && Linked(p, a) && g.fn < |p.fs| && Link(p.fs[Top(a).fn], p.fs[g.fn])
    ensures KnownFrames(p, a + [g]) && Linked(p, a + [g])
  {
    hide Link;
  }

  /** The parts of a frame that only calls and returns change. */
  predicate SameFrame(a: Frame, b: Frame) {
    a.fn == b.fn && a.pending == b.pending && a.pendingPc == b.pendingPc
  }

  predicate IsCall(ins: Instruction) {
    ins.Call? || ins.CallValue?
  }

  predicate Jumps(ins: Instruction) {
    ins.Jump? || ins.JumpFalse? || ins.IterNext?
  }

  /** What each kind of effect can be, whatever the instruction and the answer. */
  predicate Shaped(p: Image, below: seq<Frame>, f: Frame, ins: Instruction, e: Effect)
    requires f.fn < |p.fs|
  {
    match e
    case Next(frames, branched) =>
      |frames| == |below| + 1 && Below(frames) == below && SameFrame(Top(frames), f) && (branched ==> Branches(ins))
      && (Top(frames).pc == f.pc || (Jumps(ins) && Top(frames).pc == ins.target))
    case Suspended(frames, _) =>
      |frames| == |below| + 1 && Below(frames) == below && SameFrame(Top(frames), f) && IsCall(ins)
      && Top(frames).pc == f.pc
    case Pushed(frames) =>
      && |frames| == |below| + 2 && Below(Below(frames)) == below && SameFrame(Top(Below(frames)), f) && IsCall(ins)
      && Top(frames).fn < |p.fs| && !Top(frames).pending && Link(p.fs[f.fn], p.fs[Top(frames).fn])
      && Top(frames).pc == 0 && Top(Below(frames)).pc == f.pc
    case Popped(frames) =>
      below != [] && |frames| == |below| && Below(frames) == Below(below) && SameFrame(Top(frames), Top(below)) && ins.Return?
      && Top(frames).pc == Top(below).pc
    case Finishes(_) => below == [] && ins.Return?
    case Failed => true
    case Exiting => true
  }

  lemma CalleeChecked(p: Image, f: Frame, ins: Instruction)
    requires f.fn < |p.fs| && Callee(p, f, ins).Some?
    ensures IsCall(ins)
    ensures MayCall(p, p.fs[f.fn], Callee(p, f, ins).value, ins.arity, ins.awaited)
  {
  }

  lemma BuiltinShaped(p: Image, below: seq<Frame>, f: Frame, g: Frame, ins: Instruction, b: Builtin, o: Outcome)
    requires f.fn < |p.fs| && SameFrame(g, f) && g.pc == f.pc && IsCall(ins) && CallEdge(p.fs[f.fn], BuiltinTarget(b), ins.awaited)
    ensures Shaped(p, below, f, ins, BuiltinEffect(p, below, g, b, o))
  {
    var e := BuiltinEffect(p, below, g, b, o);
    if e.Pushed? {
      var h := NewFrame(p, o.handler, o.arguments);
      assert below + [g, h] == (below + [g]) + [h];
      assert Below(e.frames) == below + [g];
      assert CallEdge(p.fs[f.fn], FunctionTarget(p.fs[o.handler]), true);
    }
  }

  lemma CallShaped(p: Image, below: seq<Frame>, f: Frame, g: Frame, ins: Instruction, name: Name, arguments: seq<Value>, o: Outcome)
    requires f.fn < |p.fs| && SameFrame(g, f) && g.pc == f.pc && IsCall(ins)
    requires MayCall(p, p.fs[f.fn], name, |arguments|, ins.awaited)
    ensures Shaped(p, below, f, ins, CallEffect(p, below, g, name, arguments, o))
  {
    hide Shaped, CallEdge;
    if name in p.table {
      BuiltinShaped(p, below, f, g, ins, p.table[name], o);
    } else {
      FunctionShaped(p, below, f, g, ins, name, arguments);
    }
  }

  lemma FunctionShaped(p: Image, below: seq<Frame>, f: Frame, g: Frame, ins: Instruction, name: Name, arguments: seq<Value>)
    requires f.fn < |p.fs| && SameFrame(g, f) && g.pc == f.pc && IsCall(ins) && name !in p.table
    requires MayCall(p, p.fs[f.fn], name, |arguments|, ins.awaited)
    ensures Shaped(p, below, f, ins, Pushed(below + [g, NewFrame(p, Named(p.fs, name), arguments)]))
  {
    hide CallEdge, Bound;
    var h := NewFrame(p, Named(p.fs, name), arguments);
    assert below + [g, h] == (below + [g]) + [h];
    assert Below(below + [g, h]) == below + [g];
    assert ins.awaited || !ins.awaited;
  }

  lemma PlainShaped(p: Image, below: seq<Frame>, f: Frame, ins: Instruction, o: Outcome)
    requires f.fn < |p.fs| && !IsCall(ins) && !ins.Return?
    ensures Shaped(p, below, f, ins, Effect1(p, below, f, ins, o))
  {
    hide Callee, CallEffect, Link;
    var e := Effect1(p, below, f, ins, o);
    if e.Next? {
      assert e.frames == below + [e.frames[|below|]];
    }
  }

  lemma ReturnShaped(p: Image, below: seq<Frame>, f: Frame, o: Outcome)
    requires f.fn < |p.fs|
    ensures Shaped(p, below, f, Return, Effect1(p, below, f, Return, o))
  {
    hide Callee, CallEffect, Link;
  }

  /** The top frame without the operands of a call. */
  function Taken(f: Frame, ins: Instruction): Frame
    requires IsCall(ins) && |f.stack| >= (if ins.Call? then ins.arity else ins.arity + 1)
  {
    f.(stack := f.stack[..|f.stack| - if ins.Call? then ins.arity else ins.arity + 1])
  }

  lemma CallUnfolds(p: Image, below: seq<Frame>, f: Frame, ins: Instruction, o: Outcome)
    requires f.fn < |p.fs| && IsCall(ins)
    ensures Callee(p, f, ins).None? ==> Effect1(p, below, f, ins, o) == Failed
    ensures Callee(p, f, ins).Some? ==>
              && |f.stack| >= (if ins.Call? then ins.arity else ins.arity + 1)
              && MayCall(p, p.fs[f.fn], Callee(p, f, ins).value, ins.arity, ins.awaited)
              && Effect1(p, below, f, ins, o)
                 == CallEffect(p, below, Taken(f, ins), Callee(p, f, ins).value, f.stack[|f.stack| - ins.arity..], o)
  {
    hide CallEffect, CallEdge, Named, CString;
  }

  lemma CallInstructionShaped(p: Image, below: seq<Frame>, f: Frame, ins: Instruction, o: Outcome)
    requires f.fn < |p.fs| && IsCall(ins)
    ensures Shaped(p, below, f, ins, Effect1(p, below, f, ins, o))
  {
    hide Effect1, Callee, CallEffect, Link, CallEdge, Named;
    CallUnfolds(p, below, f, ins, o);
    if Callee(p, f, ins).Some? {
      hide Shaped;
      CallShaped(p, below, f, Taken(f, ins), ins, Callee(p, f, ins).value, f.stack[|f.stack| - ins.arity..], o);
    }
  }

  lemma EffectShaped(p: Image, below: seq<Frame>, f: Frame, ins: Instruction, o: Outcome)
    requires f.fn < |p.fs|
    ensures Shaped(p, below, f, ins, Effect1(p, below, f, ins, o))
  {
    hide Shaped, Effect1;
    if IsCall(ins) {
      CallInstructionShaped(p, below, f, ins, o);
    } else if ins.Return? {
      ReturnShaped(p, below, f, o);
    } else {
      PlainShaped(p, below, f, ins, o);
    }
  }

  /** The answer of the world matters only where a builtin runs or an iterator is asked. */
  lemma AnswerMatters(p: Image, m: Machine, a: Answer, a': Answer)
    requires m.frames != [] && Executes(p, m).None?
    requires InstructionAt(p, Top(m.frames).fn, Top(m.frames).pc).Some? ==>
               !InstructionAt(p, Top(m.frames).fn, Top(m.frames).pc).value.IterNext?
    ensures Dispatched(p, m, a) == Dispatched(p, m, a')
  {
    hide MayCall;
  }

  // ----- Every step keeps the stack in order -----

  lemma SettledStack(p: Image, frames: seq<Frame>, f: Frame, ins: Instruction, c: Coverage, e: Effect, pc: nat)
    requires frames != [] && KnownFrames(p, frames) && Linked(p, frames) && SameFrame(f, Top(frames))
    requires Shaped(p, Below(frames), f, ins, e) && (e.Pushed? || e.Suspended? ==> |frames| <= |e.frames|)
    ensures StackOk(p, Settled(p, c, e, |frames|, f.fn, pc))
  {
    hide Link, Finished, Entered;
    match e {
      case Next(next, _) => Replaced(p, frames, next);
      case Suspended(next, _) => SuspendedStack(p, frames, next, pc);
      case Pushed(next) => PushedStack(p, frames, next, pc);
      case Popped(next) =>
        PopLinked(p, frames);
        Replaced(p, Below(frames), next);
        Replaced(p, next, PendingCompleted(p, Machine(next, Yielded, c)).frames);
      case Finishes(_) =>
      case Failed =>
      case Exiting =>
    }
  }

  lemma Replaced(p: Image, frames: seq<Frame>, next: seq<Frame>)
    requires frames != [] && KnownFrames(p, frames) && Linked(p, frames)
    requires next != [] && Below(next) == Below(frames) && Top(next).fn == Top(frames).fn
    ensures KnownFrames(p, next) && Linked(p, next)
  {
    hide Link, Linked;
    assert next == Below(next) + [Top(next)];
    SameCodeLinked(p, frames, next);
  }

  lemma SuspendedStack(p: Image, frames: seq<Frame>, next: seq<Frame>, pc: nat)
    requires frames != [] && KnownFrames(p, frames) && Linked(p, frames)
    requires |next| == |frames| && Below(next) == Below(frames) && Top(next).fn == Top(frames).fn
    ensures KnownFrames(p, SetPending(next, |frames|, pc)) && Linked(p, SetPending(next, |frames|, pc))
  {
    hide Link, Linked;
    Replaced(p, frames, next);
    SameCodeLinked(p, next, SetPending(next, |frames|, pc));
  }

  lemma PushedStack(p: Image, frames: seq<Frame>, next: seq<Frame>, pc: nat)
    requires frames != [] && KnownFrames(p, frames) && Linked(p, frames)
    requires |next| == |frames| + 1 && Below(Below(next)) == Below(frames) && Top(Below(next)).fn == Top(frames).fn
    requires Top(next).fn < |p.fs| && Link(p.fs[Top(frames).fn], p.fs[Top(next).fn])
    ensures KnownFrames(p, SetPending(next, |frames|, pc)) && Linked(p, SetPending(next, |frames|, pc))
  {
    hide Link, Linked;
    Replaced(p, frames, Below(next));
    PushLinked(p, Below(next), Top(next));
    assert next == Below(next) + [Top(next)];
    SameCodeLinked(p, next, SetPending(next, |frames|, pc));
  }

  lemma PopLinked(p: Image, frames: seq<Frame>)
    requires frames != [] && KnownFrames(p, frames) && Linked(p, frames)
    ensures KnownFrames(p, Below(frames)) && Linked(p, Below(frames))
  {
    hide Link;
    forall i | 0 <= i < |Below(frames)| - 1
      ensures Link(p.fs[Below(frames)[i].fn], p.fs[Below(frames)[i + 1].fn])
    {
      assert Link(p.fs[frames[i].fn], p.fs[frames[i + 1].fn]);
    }
  }

  lemma DispatchKeepsStack(p: Image, m: Machine, a: Answer)
    requires StackOk(p, m)
    ensures StackOk(p, Dispatched(p, m, a))
  {
    hide Effect1, Settled, Shaped, Linked, Attempted;
    if m.status.Yielded? {
      var f := Top(m.frames);
      var ins := InstructionAt(p, f.fn, f.pc);
      if ins.Some? {
        var g := f.(pc := f.pc + 1);
        EffectShaped(p, Below(m.frames), g, ins.value, a.outcome);
        EffectDepth(p, Below(m.frames), g, ins.value, a.outcome);
        var c := if Executes(p, m).Some? && a.gap then Attempted(m.coverage, f.fn, f.pc).(gap := true)
                 else Attempted(m.coverage, f.fn, f.pc);
        SettledStack(p, m.frames, g, ins.value, c, Effect1(p, Below(m.frames), g, ins.value, a.outcome), f.pc);
      } else {
        NoFrames(p, m);
      }
    }
  }

  lemma NoFrames(p: Image, m: Machine)
    ensures StackOk(p, Stopped(m, Trapped))
  {
  }

  lemma ResumeKeepsStack(p: Image, m: Machine, v: Value)
    requires StackOk(p, m) && m.frames != []
    ensures StackOk(p, Resumed(p, m, v))
  {
    hide Link, Finished;
    SameCodeLinked(p, m.frames, Resumed(p, m, v).frames);
  }

  lemma StepKeepsStack(p: Image, m: Machine, e: Event)
    requires StackOk(p, m)
    ensures StackOk(p, Step(p, m, e))
  {
    hide StackOk, Dispatched, Resumed, ValidRead;
    NoFrames(p, m);
    match e {
      case Dispatch(a) => DispatchKeepsStack(p, m, a);
      case CompletePrint(ok) =>
        if m.frames != [] {
          ResumeKeepsStack(p, m, Void);
        }
      case CompleteRead(result) =>
        if m.frames != [] && result.Some? {
          ResumeKeepsStack(p, m, result.value);
        }
    }
  }

  lemma {:induction false} RunKeepsStack(p: Image, m: Machine, events: seq<Event>)
    requires StackOk(p, m)
    ensures StackOk(p, Run(p, m, events))
  {
    hide StackOk, Step;
    if events != [] {
      RunKeepsStack(p, m, events[..|events| - 1]);
      StepKeepsStack(p, Run(p, m, events[..|events| - 1]), events[|events| - 1]);
    }
  }

  // ----- Effect discipline -----

  lemma {:induction false} PureAbove(p: Image, frames: seq<Frame>, i: nat, j: nat)
    requires KnownFrames(p, frames) && Linked(p, frames) && i <= j < |frames| && p.fs[frames[i].fn].pure
    ensures p.fs[frames[j].fn].pure && (i < j ==> !p.fs[frames[j].fn].isAsync)
    decreases j
  {
    if i < j {
      PureAbove(p, frames, i, j - 1);
      assert Link(p.fs[frames[j - 1].fn], p.fs[frames[j - 1 + 1].fn]);
    }
  }

  lemma {:induction false} AsyncBelow(p: Image, frames: seq<Frame>, i: nat, j: nat)
    requires KnownFrames(p, frames) && Linked(p, frames) && i <= j < |frames| && p.fs[frames[j].fn].isAsync
    ensures p.fs[frames[i].fn].isAsync && (i < j ==> !p.fs[frames[i].fn].pure)
    decreases j - i
  {
    if i < j {
      AsyncBelow(p, frames, i + 1, j);
      assert Link(p.fs[frames[i].fn], p.fs[frames[i + 1].fn]);
    }
  }

  lemma {:induction false} OrdinaryBelow(p: Image, frames: seq<Frame>, i: nat, j: nat)
    requires KnownFrames(p, frames) && Linked(p, frames) && i <= j < |frames| && Ordinary(p.fs[frames[j].fn])
    ensures Ordinary(p.fs[frames[i].fn])
    decreases j - i
  {
    if i < j {
      OrdinaryBelow(p, frames, i + 1, j);
      assert Link(p.fs[frames[i].fn], p.fs[frames[i + 1].fn]);
    }
  }

  /** The machine after some run that started with a call of function `f`. */
  ghost predicate Reachable(p: Image, m: Machine) {
    exists ceiling: nat, f: nat, arguments: seq<Value>, events: seq<Event> ::
      f < |p.fs| && |arguments| == |p.fs[f].params| && Run(p, Created(p, ceiling, f, arguments), events) == m
  }

  lemma ReachableStack(p: Image, m: Machine)
    requires Reachable(p, m)
    ensures StackOk(p, m)
  {
    var ceiling: nat, f: nat, arguments: seq<Value>, events: seq<Event> :|
      f < |p.fs| && |arguments| == |p.fs[f].params| && Run(p, Created(p, ceiling, f, arguments), events) == m;
    hide Run;
    RunKeepsStack(p, Created(p, ceiling, f, arguments), events);
  }

  /** Only pure frames stand above a pure frame, in every run of every program. */
  lemma PureStack(p: Image, m: Machine, i: nat, j: nat)
    requires Reachable(p, m) && i < j < |m.frames|
    ensures m.frames[i].fn < |p.fs| && m.frames[j].fn < |p.fs|
    ensures p.fs[m.frames[i].fn].pure ==> p.fs[m.frames[j].fn].pure && !p.fs[m.frames[j].fn].isAsync
  {
    ReachableStack(p, m);
    if p.fs[m.frames[i].fn].pure {
      PureAbove(p, m.frames, i, j);
    }
  }

  lemma ExecutesChecked(p: Image, m: Machine)
    requires KnownFrames(p, m.frames) && Executes(p, m).Some?
    ensures m.frames != []
    ensures exists awaited :: CallEdge(p.fs[Top(m.frames).fn], BuiltinTarget(Executes(p, m).value), awaited)
  {
    var f := Top(m.frames);
    CalleeChecked(p, f, InstructionAt(p, f.fn, f.pc).value);
  }

  /** A builtin with an unrestricted effect runs only on a stack of ordinary frames, an
      asynchronous service only on a stack of asynchronous frames, and under a pure frame only
      pure builtins run. */
  lemma EffectDiscipline(p: Image, m: Machine, i: nat)
    requires Reachable(p, m) && Executes(p, m).Some? && i < |m.frames|
    ensures m.frames[i].fn < |p.fs|
    ensures OrdinaryBuiltin(Executes(p, m).value) ==> Ordinary(p.fs[m.frames[i].fn])
    ensures Executes(p, m).value.async ==> p.fs[m.frames[i].fn].isAsync && !p.fs[m.frames[i].fn].pure
    ensures p.fs[m.frames[i].fn].pure ==> Executes(p, m).value.pure && !Executes(p, m).value.async
  {
    hide Executes, Reachable;
    ReachableStack(p, m);
    ExecutesChecked(p, m);
    BuiltinOnStack(p, m.frames, Executes(p, m).value, i);
  }

  lemma BuiltinOnStack(p: Image, frames: seq<Frame>, b: Builtin, i: nat)
    requires i < |frames| && KnownFrames(p, frames) && Linked(p, frames)
    requires exists awaited :: CallEdge(p.fs[Top(frames).fn], BuiltinTarget(b), awaited)
    ensures OrdinaryBuiltin(b) ==> Ordinary(p.fs[frames[i].fn])
    ensures b.async ==> p.fs[frames[i].fn].isAsync && !p.fs[frames[i].fn].pure
    ensures p.fs[frames[i].fn].pure ==> b.pure && !b.async
  {
    hide Linked;
    var top := |frames| - 1;
    if OrdinaryBuiltin(b) {
      OrdinaryBelow(p, frames, i, top);
    }
    if b.async {
      AsyncBelow(p, frames, i, top);
    }
    if p.fs[frames[i].fn].pure {
      PureAbove(p, frames, i, top);
    }
  }

  // ----- Verified programs -----

  /** In a verified program no direct call fails the effect and signature check of the
      interpreter: with enough operands it gets its callee. */
  lemma DirectCallsPass(p: Image, f: Frame, pc: nat)
    requires Verified(p.table, p.fs) && f.fn < |p.fs| && pc < |p.fs[f.fn].ins| && p.fs[f.fn].ins[pc].Call?
    requires |f.stack| >= p.fs[f.fn].ins[pc].arity
    ensures Callee(p, f, p.fs[f.fn].ins[pc]) == Some(p.fs[f.fn].ins[pc].name)
  {
    hide Lexical;
    assert FunctionOk(p.table, p.fs, f.fn);
    assert InstructionOk(p.table, p.fs, p.fs[f.fn], p.fs[f.fn].ins[pc]);
  }

  predicate InCode(p: Image, frames: seq<Frame>) {
    forall i :: 0 <= i < |frames| ==> frames[i].fn < |p.fs| && frames[i].pc <= |p.fs[frames[i].fn].ins|
  }

  lemma EffectInCode(p: Image, below: seq<Frame>, f: Frame, pc: nat, o: Outcome)
    requires f.fn < |p.fs| && pc < |p.fs[f.fn].ins| && InstructionOk(p.table, p.fs, p.fs[f.fn], p.fs[f.fn].ins[pc])
    requires InCode(p, below + [f])
    ensures var e := Effect1(p, below, f, p.fs[f.fn].ins[pc], o);
            e.Next? || e.Pushed? || e.Suspended? || e.Popped? ==> InCode(p, e.frames)
  {
    hide Effect1, CallEdge;
    var ins := p.fs[f.fn].ins[pc];
    EffectShaped(p, below, f, ins, o);
    assert f == (below + [f])[|below|];
    forall i | 0 <= i < |below|
      ensures below[i].fn < |p.fs| && below[i].pc <= |p.fs[below[i].fn].ins|
    {
      assert (below + [f])[i] == below[i];
    }
    ShapedInCode(p, below, f, ins, Effect1(p, below, f, ins, o));
  }

  predicate AtCode(p: Image, f: Frame) {
    f.fn < |p.fs| && f.pc <= |p.fs[f.fn].ins|
  }

  lemma ShapedInCode(p: Image, below: seq<Frame>, f: Frame, ins: Instruction, e: Effect)
    requires AtCode(p, f) && (Jumps(ins) ==> ins.target < |p.fs[f.fn].ins|) && Shaped(p, below, f, ins, e)
    requires InCode(p, below)
    ensures e.Next? || e.Pushed? || e.Suspended? || e.Popped? ==> InCode(p, e.frames)
  {
    hide Link, Branches;
    if e.Next? || e.Suspended? || e.Popped? {
      assert e.frames == Below(e.frames) + [Top(e.frames)];
      OneMore(p, Below(e.frames), Top(e.frames));
    } else if e.Pushed? {
      var caller := Below(e.frames);
      assert e.frames == caller + [Top(e.frames)] && caller == Below(caller) + [Top(caller)];
      OneMore(p, Below(caller), Top(caller));
      OneMore(p, caller, Top(e.frames));
    }
  }

  lemma OneMore(p: Image, frames: seq<Frame>, f: Frame)
    requires InCode(p, frames) && AtCode(p, f)
    ensures InCode(p, frames + [f])
  {
  }

  lemma SettledInCode(p: Image, c: Coverage, e: Effect, depth: nat, f: nat, pc: nat)
    requires depth > 0 && (e.Pushed? || e.Suspended? ==> depth <= |e.frames|)
    requires e.Next? || e.Pushed? || e.Suspended? || e.Popped? ==> InCode(p, e.frames)
    ensures InCode(p, Settled(p, c, e, depth, f, pc).frames)
  {
  }

  lemma DispatchInCode(p: Image, m: Machine, a: Answer)
    requires Verified(p.table, p.fs) && InCode(p, m.frames)
    ensures InCode(p, Dispatched(p, m, a).frames)
  {
    hide Verified, Effect1, Settled, Attempted, Executes, CallEdge;
    if m.status.Yielded? && m.frames != [] {
      var f := Top(m.frames);
      if f.pc < |p.fs[f.fn].ins| {
        var g := f.(pc := f.pc + 1);
        VerifiedAt(p, f.fn, f.pc);
        assert InCode(p, Below(m.frames) + [g]);
        EffectInCode(p, Below(m.frames), g, f.pc, a.outcome);
        EffectDepth(p, Below(m.frames), g, p.fs[f.fn].ins[f.pc], a.outcome);
        hide InCode;
        var c := if Executes(p, m).Some? && a.gap then Attempted(m.coverage, f.fn, f.pc).(gap := true)
                 else Attempted(m.coverage, f.fn, f.pc);
        SettledInCode(p, c, Effect1(p, Below(m.frames), g, p.fs[f.fn].ins[f.pc], a.outcome), |m.frames|, f.fn, f.pc);
      }
    }
  }

  lemma ResumeInCode(p: Image, m: Machine, v: Value)
    requires m.frames != [] && InCode(p, m.frames)
    ensures InCode(p, Resumed(p, m, v).frames)
  {
    hide Finished;
  }

  /** In a verified program control never leaves the code of a function other than past its end. */
  lemma StepKeepsInCode(p: Image, m: Machine, e: Event)
    requires Verified(p.table, p.fs) && InCode(p, m.frames)
    ensures InCode(p, Step(p, m, e).frames)
  {
    assert InCode(p, []);
    hide Verified, InCode, Dispatched, Resumed, ValidRead;
    match e {
      case Dispatch(a) => DispatchInCode(p, m, a);
      case CompletePrint(ok) =>
        if m.frames != [] {
          ResumeInCode(p, m, Void);
        }
      case CompleteRead(result) =>
        if m.frames != [] && result.Some? {
          ResumeInCode(p, m, result.value);
        }
    }
  }

  lemma VerifiedAt(p: Image, f: nat, pc: nat)
    requires Verified(p.table, p.fs) && f < |p.fs| && pc < |p.fs[f].ins|
    ensures InstructionOk(p.table, p.fs, p.fs[f], p.fs[f].ins[pc])
  {
    hide Lexical, InstructionOk;
    assert FunctionOk(p.table, p.fs, f);
  }

  lemma {:induction false} RunKeepsInCode(p: Image, m: Machine, events: seq<Event>)
    requires Verified(p.table, p.fs) && InCode(p, m.frames)
    ensures InCode(p, Run(p, m, events).frames)
  {
    hide Verified, Step, InCode;
    if events != [] {
      RunKeepsInCode(p, m, events[..|events| - 1]);
      StepKeepsInCode(p, Run(p, m, events[..|events| - 1]), events[|events| - 1]);
    }
  }

  /** In every run of a verified program every frame stays inside the code of its function or stands
      just past its end, where the interpreter traps. */
  lemma VerifiedControl(p: Image, m: Machine, i: nat)
    requires Verified(p.table, p.fs) && Reachable(p, m) && i < |m.frames|
    ensures m.frames[i].fn < |p.fs| && m.frames[i].pc <= |p.fs[m.frames[i].fn].ins|
  {
    hide Verified, Run;
    var ceiling: nat, f: nat, arguments: seq<Value>, events: seq<Event> :|
      f < |p.fs| && |arguments| == |p.fs[f].params| && Run(p, Created(p, ceiling, f, arguments), events) == m;
    RunKeepsInCode(p, Created(p, ceiling, f, arguments), events);
  }
}
