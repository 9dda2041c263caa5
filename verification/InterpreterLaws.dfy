/** What the instructions mean, stated on the frames alone: branches, locals, calls and returns,
    indirect calls and waits. */
module InterpreterLaws {
  import opened Utf8
  import opened Bytecode
  import opened Effects
  import opened Interpreter
  import opened InterpreterProofs

  /** The machine is about to run instruction `ins`. */
  ghost predicate At(p: Image, m: Machine, ins: Instruction) {
    m.status.Yielded? && m.frames != [] && InstructionAt(p, Top(m.frames).fn, Top(m.frames).pc) == Some(ins)
  }

  /** The machine runs on, with `f` as its new top frame. */
  ghost predicate Goes(m: Machine, r: Machine, f: Frame) {
    m.frames != [] && r.status.Yielded? && r.frames == Below(m.frames) + [f]
  }

  // ----- Branches -----

  /** JUMP_FALSE takes its operand off and goes to the target exactly when that was false; JUMP does the
      same without an operand. */
  lemma JumpsTake(p: Image, m: Machine, a: Answer, ins: Instruction, target: nat, s: seq<Value>, b: bool)
    requires At(p, m, ins)
    requires || (ins == JumpFalse(target) && Top(m.frames).stack == s + [Bool(b)])
             || (ins == Jump(target) && Top(m.frames).stack == s && !b)
    ensures var f := Top(m.frames);
            Goes(m, Dispatched(p, m, a), f.(stack := s, pc := if b then f.pc + 1 else target))
  {
  }

  /** ITER_NEXT binds the item it was given and goes on, or goes to the target at the end. */
  lemma IterNextTakes(p: Image, m: Machine, a: Answer, name: Name, item: Name, target: nat)
    requires At(p, m, IterNext(name, item, target))
    requires name in Top(m.frames).locals && Top(m.frames).locals[name].Iter?
    ensures var f, r := Top(m.frames), Dispatched(p, m, a);
            match a.outcome
            case Returned(v) => Goes(m, r, f.(locals := f.locals[item := v], pc := f.pc + 1))
            case Ended => Goes(m, r, f.(pc := target))
            case _ => r.status.Trapped?
  {
  }

  // ----- Operands and locals -----

  /** STORE then LOAD of one name gives the operand back and leaves every other local alone. */
  lemma StoreThenLoad(p: Image, m: Machine, a: Answer, b: Answer, name: Name, s: seq<Value>, v: Value)
    requires At(p, m, Store(name)) && Top(m.frames).stack == s + [v]
    requires InstructionAt(p, Top(m.frames).fn, Top(m.frames).pc + 1) == Some(Load(name))
    ensures var f, r := Top(m.frames), Dispatched(p, Dispatched(p, m, a), b);
            && r.status.Yielded? && r.frames != [] && Below(r.frames) == Below(m.frames)
            && Top(r.frames) == f.(stack := s + [v], pc := f.pc + 2, locals := Top(r.frames).locals)
            && Top(r.frames).locals.Keys == f.locals.Keys + {name} && Top(r.frames).locals[name] == v
            && forall x :: x in f.locals && x != name ==> Top(r.frames).locals[x] == f.locals[x]
  {
    var m1 := Dispatched(p, m, a);
    var f := Top(m.frames);
    var g := f.(stack := s, pc := f.pc + 1, locals := f.locals[name := v]);
    Stored(p, m, a, name, s, v);
    assert Top(m1.frames) == g && Below(m1.frames) == Below(m.frames);
    hide Dispatched;
    Loaded(p, m1, b, name);
  }

  lemma Stored(p: Image, m: Machine, a: Answer, name: Name, s: seq<Value>, v: Value)
    requires At(p, m, Store(name)) && Top(m.frames).stack == s + [v]
    ensures var f := Top(m.frames);
            Goes(m, Dispatched(p, m, a), f.(stack := s, pc := f.pc + 1, locals := f.locals[name := v]))
  {
  }

  lemma Loaded(p: Image, m: Machine, a: Answer, name: Name)
    requires At(p, m, Load(name))
    ensures var f, r := Top(m.frames), Dispatched(p, m, a);
            if name in f.locals then Goes(m, r, f.(stack := f.stack + [f.locals[name]], pc := f.pc + 1))
            else r.status.Trapped?
  {
  }

  /** LOAD then STORE of one name is a detour: only the counter moves. */
  lemma LoadThenStore(p: Image, m: Machine, a: Answer, b: Answer, name: Name)
    requires At(p, m, Load(name)) && name in Top(m.frames).locals
    requires InstructionAt(p, Top(m.frames).fn, Top(m.frames).pc + 1) == Some(Store(name))
    ensures var f := Top(m.frames);
            Goes(m, Dispatched(p, Dispatched(p, m, a), b), f.(pc := f.pc + 2))
  {
    var m1 := Dispatched(p, m, a);
    var f := Top(m.frames);
    Loaded(p, m, a, name);
    assert Top(m1.frames) == f.(stack := f.stack + [f.locals[name]], pc := f.pc + 1) && Below(m1.frames) == Below(m.frames);
    hide Dispatched;
    Stored(p, m1, b, name, f.stack, f.locals[name]);
    assert f.locals[name := f.locals[name]] == f.locals;
  }

  /** CONST then POP is a detour too. */
  lemma ConstThenPop(p: Image, m: Machine, a: Answer, b: Answer, v: Value)
    requires At(p, m, Const(v)) && InstructionAt(p, Top(m.frames).fn, Top(m.frames).pc + 1) == Some(Pop)
    ensures Top(m.frames).stack + [v] == Top(Dispatched(p, m, a).frames).stack
    ensures var f := Top(m.frames);
            Goes(m, Dispatched(p, Dispatched(p, m, a), b), f.(pc := f.pc + 2))
  {
    var m1 := Dispatched(p, m, a);
    var f := Top(m.frames);
    assert m1.status.Yielded? && m1.frames == Below(m.frames) + [f.(stack := f.stack + [v], pc := f.pc + 1)];
    assert Below(m1.frames) == Below(m.frames);
    assert (f.stack + [v])[..|f.stack|] == f.stack;
  }

  // ----- Calls -----

  /** The last of several parameters of one name decides. */
  ghost predicate LastNamed(params: seq<Name>, k: nat)
    requires k < |params|
  {
    forall j :: k < j < |params| ==> params[j] != params[k]
  }

  lemma {:induction false} BoundAt(params: seq<Name>, arguments: seq<Value>, k: nat)
    requires |params| == |arguments| && k < |params| && LastNamed(params, k)
    ensures params[k] in Bound(params, arguments) && Bound(params, arguments)[params[k]] == arguments[k]
    decreases |params|
  {
    var n := |params| - 1;
    if k < n {
      BoundAt(params[..n], arguments[..n], k);
      assert params[n] != params[k];
    }
  }

  lemma {:induction false} BoundKeys(params: seq<Name>, arguments: seq<Value>)
    requires |params| == |arguments|
    ensures Bound(params, arguments).Keys == set x | x in params
    decreases |params|
  {
    if params != [] {
      var n := |params| - 1;
      BoundKeys(params[..n], arguments[..n]);
      assert params == params[..n] + [params[n]];
    }
  }

  /** A frame at the start of function `g` with the k-th operand bound to the k-th parameter. */
  ghost predicate Starts(p: Image, g: nat, arguments: seq<Value>, f: Frame)
    requires g < |p.fs| && |arguments| == |p.fs[g].params|
  {
    var params := p.fs[g].params;
    && f.fn == g && f.pc == 0 && f.stack == [] && !f.pending
    && f.locals.Keys == (set x | x in params)
    && forall k :: 0 <= k < |params| && LastNamed(params, k) ==> f.locals[params[k]] == arguments[k]
  }

  lemma NewFrameStarts(p: Image, g: nat, arguments: seq<Value>)
    requires g < |p.fs| && |arguments| == |p.fs[g].params|
    ensures Starts(p, g, arguments, NewFrame(p, g, arguments))
  {
    hide Bound;
    var params := p.fs[g].params;
    BoundKeys(params, arguments);
    forall k | 0 <= k < |params| && LastNamed(params, k)
      ensures NewFrame(p, g, arguments).locals[params[k]] == arguments[k]
    {
      BoundAt(params, arguments, k);
    }
  }

  /** A call of the function `g`: the caller keeps `s` and is marked, the callee starts above it. */
  ghost predicate Calls(p: Image, m: Machine, r: Machine, g: nat, s: seq<Value>, arguments: seq<Value>) {
    && m.frames != [] && g < |p.fs| && |arguments| == |p.fs[g].params|
    && r.status.Yielded? && |r.frames| == |m.frames| + 1
    && var f := Top(m.frames);
       && Below(r.frames) == Below(m.frames) + [f.(stack := s, pc := f.pc + 1, pending := true, pendingPc := f.pc)]
       && Starts(p, g, arguments, Top(r.frames))
  }

  lemma CallPushes(p: Image, m: Machine, r: Machine, g: nat, s: seq<Value>, arguments: seq<Value>)
    requires m.frames != [] && g < |p.fs| && |arguments| == |p.fs[g].params| && r.status.Yielded?
    requires var f := Top(m.frames);
             r.frames == SetPending(Below(m.frames) + [f.(stack := s, pc := f.pc + 1), NewFrame(p, g, arguments)], |m.frames|, f.pc)
    ensures Calls(p, m, r, g, s, arguments)
  {
    hide Starts, NewFrame;
    var f := Top(m.frames);
    assert Top(r.frames) == NewFrame(p, g, arguments);
    assert Below(r.frames) == Below(m.frames) + [f.(stack := s, pc := f.pc + 1, pending := true, pendingPc := f.pc)];
    NewFrameStarts(p, g, arguments);
  }

  /** A direct call of a function whose check passes. */
  lemma DirectCall(p: Image, m: Machine, a: Answer, name: Name, awaited: bool, s: seq<Value>, arguments: seq<Value>)
    requires At(p, m, Call(name, |arguments|, awaited)) && Top(m.frames).stack == s + arguments && name !in p.table
    requires MayCall(p, p.fs[Top(m.frames).fn], name, |arguments|, awaited)
    ensures Calls(p, m, Dispatched(p, m, a), Named(p.fs, name), s, arguments)
  {
    hide NewFrame, Starts, CallEdge, Named;
    var f := Top(m.frames);
    var g := f.(pc := f.pc + 1);
    CallUnfolds(p, Below(m.frames), g, Call(name, |arguments|, awaited), a.outcome);
    assert g.stack[..|g.stack| - |arguments|] == s && g.stack[|g.stack| - |arguments|..] == arguments;
    CallPushes(p, m, Dispatched(p, m, a), Named(p.fs, name), s, arguments);
  }

  /** In a verified program every direct call of a function with enough operands goes through, and binds
      every parameter to its own operand. */
  lemma VerifiedCall(p: Image, m: Machine, a: Answer, name: Name, awaited: bool, s: seq<Value>, arguments: seq<Value>)
    requires Verified(p.table, p.fs) && name !in p.table
    requires At(p, m, Call(name, |arguments|, awaited)) && Top(m.frames).stack == s + arguments
    ensures var r, g := Dispatched(p, m, a), Named(p.fs, name);
            && Calls(p, m, r, g, s, arguments)
            && forall k :: 0 <= k < |arguments| ==> Top(r.frames).locals[p.fs[g].params[k]] == arguments[k]
  {
    hide Verified, Dispatched, CallEdge;
    var f, g := Top(m.frames), Named(p.fs, name);
    DirectCallsPass(p, f, f.pc);
    CalleeChecked(p, f, Call(name, |arguments|, awaited));
    DirectCall(p, m, a, name, awaited, s, arguments);
    VerifiedParameters(p, g);
    assert Starts(p, g, arguments, Top(Dispatched(p, m, a).frames));
  }

  lemma VerifiedParameters(p: Image, g: nat)
    requires Verified(p.table, p.fs) && g < |p.fs|
    ensures forall k :: 0 <= k < |p.fs[g].params| ==> LastNamed(p.fs[g].params, k)
  {
    hide Lexical, InstructionOk;
    assert FunctionOk(p.table, p.fs, g);
  }

  lemma {:induction false} CStringWhole(text: seq<byte>)
    requires 0 !in text
    ensures CString(text) == text
  {
    if text != [] {
      CStringWhole(text[1..]);
    }
  }

  /** A call through a value is the direct call of the function it names. */
  lemma IndirectCall(p: Image, m: Machine, a: Answer, name: Name, awaited: bool, s: seq<Value>, arguments: seq<Value>)
    requires At(p, m, CallValue(|arguments|, awaited)) && Top(m.frames).stack == s + [Str(name)] + arguments
    requires 0 !in name && name !in p.table && MayCall(p, p.fs[Top(m.frames).fn], name, |arguments|, awaited)
    ensures Calls(p, m, Dispatched(p, m, a), Named(p.fs, name), s, arguments)
  {
    hide NewFrame, Starts, CallEdge, Named, CString;
    var f := Top(m.frames);
    var g := f.(pc := f.pc + 1);
    var ins := CallValue(|arguments|, awaited);
    CStringWhole(name);
    assert g.stack[|g.stack| - |arguments| - 1] == Str(name);
    CallUnfolds(p, Below(m.frames), g, ins, a.outcome);
    assert Taken(g, ins).stack == s && g.stack[|g.stack| - |arguments|..] == arguments;
    CallPushes(p, m, Dispatched(p, m, a), Named(p.fs, name), s, arguments);
  }

  /** RETURN hands its operand to the frame below, or to the host from the last frame. */
  lemma ReturnTakes(p: Image, m: Machine, a: Answer, s: seq<Value>, v: Value)
    requires At(p, m, Return) && Top(m.frames).stack == s + [v]
    requires var g := p.fs[Top(m.frames).fn]; g.isAsync && g.name == MAIN ==> v.Unit?
    ensures var r := Dispatched(p, m, a);
            if |m.frames| == 1 then r.status == Completed(v) && r.frames == []
            else
              var caller := Top(Below(m.frames));
              && r.status.Yielded?
              && r.frames == Below(Below(m.frames)) + [caller.(stack := caller.stack + [v], pending := false)]
  {
  }

  // ----- A whole call -----

  /** The run never returns to a depth of `d` frames or fewer. */
  ghost predicate Deep(p: Image, m: Machine, events: seq<Event>, d: nat) {
    forall k :: 0 <= k <= |events| ==> |Run(p, m, events[..k]).frames| > d
  }

  lemma SettledBelow(p: Image, c: Coverage, frames: seq<Frame>, g: Frame, ins: Instruction, e: Effect, pc: nat, d: nat)
    requires frames != [] && g.fn < |p.fs| && Shaped(p, Below(frames), g, ins, e) && d < |frames|
    requires e.Pushed? || e.Suspended? ==> |frames| <= |e.frames|
    requires |Settled(p, c, e, |frames|, g.fn, pc).frames| > d
    ensures Settled(p, c, e, |frames|, g.fn, pc).frames[..d] == frames[..d]
  {
    hide Link, Finished, Entered;
    match e {
      case Next(next, _) => assert next[..d] == Below(next)[..d];
      case Suspended(next, _) => assert SetPending(next, |frames|, pc)[..d] == next[..d] == Below(next)[..d];
      case Pushed(next) =>
        assert SetPending(next, |frames|, pc)[..d] == next[..d];
        assert next[..d] == Below(next)[..d] == Below(Below(next))[..d];
      case Popped(next) =>
        var r := PendingCompleted(p, Machine(next, Yielded, c)).frames;
        assert r[..d] == next[..d] == Below(next)[..d];
      case _ =>
    }
  }

  /** A step that stays above depth `d` leaves the lowest `d` frames alone. */
  lemma StepBelow(p: Image, m: Machine, e: Event, d: nat)
    requires |m.frames| > d && |Step(p, m, e).frames| > d
    ensures Step(p, m, e).frames[..d] == m.frames[..d]
  {
    hide Effect1, Shaped, Settled, Executes, Attempted, ValidRead, Finished;
    if e.Dispatch? && m.status.Yielded? {
      var f := Top(m.frames);
      var ins := InstructionAt(p, f.fn, f.pc);
      if ins.Some? {
        var g := f.(pc := f.pc + 1);
        EffectShaped(p, Below(m.frames), g, ins.value, e.answer.outcome);
        EffectDepth(p, Below(m.frames), g, ins.value, e.answer.outcome);
        var c := if Executes(p, m).Some? && e.answer.gap then Attempted(m.coverage, f.fn, f.pc).(gap := true)
                 else Attempted(m.coverage, f.fn, f.pc);
        SettledBelow(p, c, m.frames, g, ins.value, Effect1(p, Below(m.frames), g, ins.value, e.answer.outcome), f.pc, d);
      }
    }
  }

  /** Frames are isolated: whatever the frames above do, the lowest `d` stay as they are. */
  lemma {:induction false} FramesIsolated(p: Image, m: Machine, events: seq<Event>, d: nat)
    requires Deep(p, m, events, d)
    ensures |m.frames| > d && |Run(p, m, events).frames| > d && Run(p, m, events).frames[..d] == m.frames[..d]
  {
    assert events[..|events|] == events;
    assert |Run(p, m, events[..0]).frames| > d;
    assert |Run(p, m, events[..|events|]).frames| > d;
    if events != [] {
      var n := |events| - 1;
      forall k | 0 <= k <= n ensures |Run(p, m, events[..n][..k]).frames| > d {
        assert events[..n][..k] == events[..k];
      }
      FramesIsolated(p, m, events[..n], d);
      hide Step;
      StepBelow(p, Run(p, m, events[..n]), events[n], d);
    }
  }

  /** A whole call: however long the callee runs and waits, when it returns, its caller goes on
      behind the call with its operands replaced by the value and everything else as it was. */
  lemma CallReturns(p: Image, m: Machine, m1: Machine, g: nat, s: seq<Value>, arguments: seq<Value>,
                    events: seq<Event>, a: Answer, t: seq<Value>, v: Value)
    requires Calls(p, m, m1, g, s, arguments) && Deep(p, m1, events, |m.frames|)
    requires var m2 := Run(p, m1, events);
             && |m2.frames| == |m.frames| + 1 && At(p, m2, Return) && Top(m2.frames).stack == t + [v]
             && var h := p.fs[Top(m2.frames).fn]; (h.isAsync && h.name == MAIN ==> v.Unit?)
    ensures var f, r := Top(m.frames), Dispatched(p, Run(p, m1, events), a);
            Goes(m, r, f.(stack := s + [v], pc := f.pc + 1, pending := false, pendingPc := f.pc))
  {
    hide Dispatched, Run, Starts;
    var m2, d := Run(p, m1, events), |m.frames|;
    FramesIsolated(p, m1, events, d);
    ReturnTakes(p, m2, a, t, v);
    assert Below(m2.frames) == m2.frames[..d] == m1.frames[..d] == Below(m1.frames);
    assert Below(Below(m1.frames)) == Below(m.frames);
  }

  // ----- Waits -----

  /** The operands that a call takes off: its arguments, and the callee of an indirect one. */
  ghost function Operands(ins: Instruction): nat
    requires IsCall(ins)
  {
    if ins.Call? then ins.arity else ins.arity + 1
  }

  /** A builtin takes its operands off and hands over a value at once or after a wait, or it ends
      the program; an asynchronous service may call a handler instead. */
  lemma BuiltinAnswers(p: Image, m: Machine, ins: Instruction, gap: bool, v: Value, w: Wait) returns (h: Frame, c: Coverage)
    requires Executes(p, m).Some? && At(p, m, ins)
    ensures IsCall(ins) && Operands(ins) <= |Top(m.frames).stack|
    ensures var f := Top(m.frames); h == f.(pc := f.pc + 1, stack := f.stack[..|f.stack| - Operands(ins)])
    ensures Dispatched(p, m, Answer(gap, Returned(v)))
         == Machine(Below(m.frames) + [Push(h, v)], Yielded, Finished(p, c, h.fn, Top(m.frames).pc, false))
    ensures Dispatched(p, m, Answer(gap, Waits(w)))
         == Machine(SetPending(Below(m.frames) + [h], |m.frames|, Top(m.frames).pc), Waiting(w), c)
    ensures Dispatched(p, m, Answer(gap, Exits)) == Machine([], Exited, c)
    ensures Dispatched(p, m, Answer(gap, Fails)) == Machine([], Trapped, c)
  {
    hide MayCall, Finished, Attempted, CString;
    var f := Top(m.frames);
    var g := f.(pc := f.pc + 1);
    CalleeSame(p, f, g, ins);
    CallUnfolds(p, Below(m.frames), g, ins, Returned(v));
    CallUnfolds(p, Below(m.frames), g, ins, Waits(w));
    CallUnfolds(p, Below(m.frames), g, ins, Exits);
    CallUnfolds(p, Below(m.frames), g, ins, Fails);
    h := Taken(g, ins);
    c := Attempted(m.coverage, f.fn, f.pc);
    c := if gap then c.(gap := true) else c;
  }

  /** A service calls its handler as a function is called; only an asynchronous service may, and
      only an asynchronous function of the right arity may be the handler. */
  lemma HandlerCall(p: Image, m: Machine, ins: Instruction, gap: bool, handler: nat, arguments: seq<Value>)
    requires Executes(p, m).Some? && At(p, m, ins) && IsCall(ins) && Operands(ins) <= |Top(m.frames).stack|
    ensures var f, r := Top(m.frames), Dispatched(p, m, Answer(gap, Invokes(handler, arguments)));
            if Executes(p, m).value.async && handler < |p.fs| && p.fs[handler].isAsync && !p.fs[handler].pure
               && |arguments| == |p.fs[handler].params|
            then Calls(p, m, r, handler, f.stack[..|f.stack| - Operands(ins)], arguments)
            else r.status.Trapped?
  {
    hide MayCall, Finished, Attempted, CString, NewFrame, Calls;
    var f := Top(m.frames);
    var g := f.(pc := f.pc + 1);
    CalleeSame(p, f, g, ins);
    CallUnfolds(p, Below(m.frames), g, ins, Invokes(handler, arguments));
    var r := Dispatched(p, m, Answer(gap, Invokes(handler, arguments)));
    if r.status.Yielded? {
      CallPushes(p, m, r, handler, f.stack[..|f.stack| - Operands(ins)], arguments);
    }
  }

  /** Waiting is transparent: a builtin that suspends and is completed with `v` ends in the same
      state, counters included, as one that returns `v` at once. */
  lemma WaitIsTransparent(p: Image, m: Machine, gap: bool, v: Value)
    requires Executes(p, m).Some? && !Top(m.frames).pending
    ensures var now := Dispatched(p, m, Answer(gap, Returned(v)));
            var f := Top(m.frames);
            && now.frames != []
            && (ValidRead(v) ==>
                  ReadCompleted(p, Dispatched(p, m, Answer(gap, Waits(ForRead))), Some(v))
                  == now.(frames := Below(now.frames) + [Top(now.frames).(pendingPc := f.pc)]))
            && (v == Void ==>
                  PrintCompleted(p, Dispatched(p, m, Answer(gap, Waits(ForPrint))), true)
                  == now.(frames := Below(now.frames) + [Top(now.frames).(pendingPc := f.pc)]))
  {
    hide Dispatched, Executes, Finished, ValidRead;
    var ins := RunsInstruction(p, m);
    var h, c := BuiltinAnswers(p, m, ins, gap, v, ForRead);
    var h', c' := BuiltinAnswers(p, m, ins, gap, v, ForPrint);
    Resuming(Below(m.frames), h, Top(m.frames).pc, v, |m.frames|);
    Resuming(Below(m.frames), h', Top(m.frames).pc, v, |m.frames|);
  }

  lemma RunsInstruction(p: Image, m: Machine) returns (ins: Instruction)
    requires Executes(p, m).Some?
    ensures At(p, m, ins)
  {
    hide Callee;
    ins := InstructionAt(p, Top(m.frames).fn, Top(m.frames).pc).value;
  }

  lemma CalleeSame(p: Image, f: Frame, g: Frame, ins: Instruction)
    requires f.fn < |p.fs| && g == f.(pc := g.pc)
    ensures Callee(p, f, ins) == Callee(p, g, ins) && (Callee(p, f, ins).Some? ==> IsCall(ins))
  {
    hide MayCall;
  }

  lemma Resuming(below: seq<Frame>, h: Frame, pc: nat, v: Value, depth: nat)
    requires depth == |below| + 1
    ensures var waiting := SetPending(below + [h], depth, pc);
            && Below(waiting) == below && Top(waiting) == h.(pending := true, pendingPc := pc)
            && Below(below + [Push(h, v)]) == below && Top(below + [Push(h, v)]) == Push(h, v)
            && Below(below + [Push(Top(waiting), v)]) == below
            && Top(below + [Push(Top(waiting), v)]) == Push(h, v).(pending := true, pendingPc := pc)
  {
  }

  // ----- Traps -----

  /** The operand or local that an instruction other than a call needs is there and of its kind. */
  ghost predicate Fed(p: Image, f: Frame, ins: Instruction, o: Outcome)
    requires f.fn < |p.fs|
  {
    match ins
    case Load(name) => name in f.locals
    case Store(_) => f.stack != []
    case Pop => f.stack != []
    case JumpFalse(_) => f.stack != [] && f.stack[|f.stack| - 1].Bool?
    case IterNext(name, _, _) => name in f.locals && f.locals[name].Iter? && (o.Returned? || o.Ended?)
    case Return => f.stack != [] && (p.fs[f.fn].isAsync && p.fs[f.fn].name == MAIN ==> f.stack[|f.stack| - 1].Unit?)
    case _ => true
  }

  lemma PlainTraps(p: Image, m: Machine, a: Answer, ins: Instruction)
    requires At(p, m, ins) && !IsCall(ins)
    ensures Dispatched(p, m, a).status.Trapped? <==> !Fed(p, Top(m.frames), ins, a.outcome)
  {
    hide Callee, CallEffect, Executes, Finished, Attempted;
  }

  lemma CallTraps(p: Image, m: Machine, a: Answer, ins: Instruction)
    requires At(p, m, ins) && IsCall(ins) && Executes(p, m).None?
    ensures Dispatched(p, m, a).status.Trapped? <==> Callee(p, Top(m.frames), ins).None?
  {
    hide MayCall, CString, Attempted, NewFrame;
    var f := Top(m.frames);
    CalleeSame(p, f, f.(pc := f.pc + 1), ins);
    CallUnfolds(p, Below(m.frames), f.(pc := f.pc + 1), ins, a.outcome);
    hide Callee, Effect1;
  }

  /** An instruction that is not a call traps exactly when it is not fed, a call that runs no
      builtin exactly when it has no callee, and running past the end of the code always does. */
  lemma TrapsExactly(p: Image, m: Machine, a: Answer)
    requires m.status.Yielded? && m.frames != [] && Executes(p, m).None?
    ensures var f := Top(m.frames);
            var ins := InstructionAt(p, f.fn, f.pc);
            Dispatched(p, m, a).status.Trapped? <==>
              || ins.None?
              || (if IsCall(ins.value) then Callee(p, f, ins.value).None? else !Fed(p, f, ins.value, a.outcome))
  {
    hide Executes, Callee, Effect1, Settled;
    var f := Top(m.frames);
    var ins := InstructionAt(p, f.fn, f.pc);
    if ins.Some? {
      if IsCall(ins.value) {
        CallTraps(p, m, a, ins.value);
      } else {
        PlainTraps(p, m, a, ins.value);
      }
    }
  }

  /** A completion reaches only an execution that waits for it, and traps it exactly when the write
      failed or the value is neither bytes under Ok nor a string under Error. */
  lemma CompletionsChecked(p: Image, m: Machine, ok: bool, result: Option<Value>)
    requires StackOk(p, m)
    ensures m.status != Waiting(ForPrint) ==> PrintCompleted(p, m, ok) == m
    ensures m.status != Waiting(ForRead) ==> ReadCompleted(p, m, result) == m
    ensures m.status == Waiting(ForPrint) ==> (PrintCompleted(p, m, ok).status.Trapped? <==> !ok)
    ensures m.status == Waiting(ForRead) ==>
              (ReadCompleted(p, m, result).status.Trapped? <==>
                 !exists inner: Value :: || (inner.Bytes? && result == Some(Variant([79, 107], [inner])))
                                         || (inner.Str? && result == Some(Variant([69, 114, 114, 111, 114], [inner]))))
  {
    hide Finished, Linked;
    if result.Some? && ValidRead(result.value) {
      assert result.value.fields == [result.value.fields[0]];
    }
  }

  /** An execution starts with one frame, at the beginning of its function, with its arguments bound. */
  lemma CreatedStarts(p: Image, ceiling: nat, f: nat, arguments: seq<Value>)
    requires f < |p.fs| && |arguments| == |p.fs[f].params|
    ensures var m := Created(p, ceiling, f, arguments);
            m.status.Yielded? && |m.frames| == 1 && Starts(p, f, arguments, m.frames[0])
  {
    NewFrameStarts(p, f, arguments);
  }
}
