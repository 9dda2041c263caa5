/** The dispatch loop as an object updated in place, tied to the interpreter of module Interpreter. */
module Execution {
  import opened Bytecode
  import opened Effects
  import opened Interpreter
  import opened InterpreterProofs
  import opened CoverageCounters

  /** The machine between an instruction and the settling of its counters. */
  function Halfway(p: Image, c: Coverage, e: Effect): Machine {
    match e
    case Next(frames, _) => Machine(frames, Yielded, c)
    case Pushed(frames) => if frames == [] then Machine([], Trapped, c) else Machine(frames, Yielded, Entered(c, Top(frames).fn))
    case Suspended(frames, wait) => Machine(frames, Waiting(wait), c)
    case Popped(frames) => PendingCompleted(p, Machine(frames, Yielded, c))
    case Finishes(v) => Machine([], Completed(v), c)
    case Failed => Machine([], Trapped, c)
    case Exiting => Machine([], Exited, c)
  }

  function Dispatches(answers: seq<Answer>): seq<Event> {
    seq(|answers|, i requires 0 <= i < |answers| => Dispatch(answers[i]))
  }

  class Execution {
    const p: Image
    const counters: Counters
    var frames: seq<Frame>
    var status: Status

    /** The counters are those of the program. */
    ghost predicate Tied() {
      counters.p == p && counters.Valid()
    }

    ghost function State(): Machine
      requires Tied()
      reads this, counters, counters.cells, counters.entries
    {
      Machine(frames, status, counters.State())
    }

    ghost predicate Valid()
      reads this, counters, counters.cells, counters.entries
    {
      Tied() && StackOk(p, State())
    }

    /** `vm_execution_create` */
    constructor (p: Image, ceiling: nat, f: nat, arguments: seq<Value>)
      requires f < |p.fs| && |arguments| == |p.fs[f].params|
      ensures this.p == p && Valid() && fresh({counters, counters.cells, counters.entries}) && State() == Created(p, ceiling, f, arguments)
    {
      this.p, status := p, Yielded;
      counters := new Counters(p, ceiling);
      frames := [];
      new;
      FramePush(f, arguments);
    }

    /** `frame_push` */
    method FramePush(f: nat, arguments: seq<Value>)
      requires Tied() && f < |p.fs| && |arguments| == |p.fs[f].params|
      modifies this`frames, counters, counters.cells, counters.entries
      ensures frames == old(frames) + [NewFrame(p, f, arguments)]
      ensures counters.State() == Entered(old(counters.State()), f)
    {
      var locals: map<Name, Value> := map[];
      var i := 0;
      var params := p.fs[f].params;
      while i < |params|
        invariant 0 <= i <= |params| && locals == Bound(params[..i], arguments[..i])
      {
        assert params[..i + 1][..i] == params[..i] && arguments[..i + 1][..i] == arguments[..i];
        locals := locals[params[i] := arguments[i]];
        i := i + 1;
      }
      assert params[..i] == params && arguments[..i] == arguments;
      frames := frames + [Frame(f, 0, [], locals, false, 0)];
      counters.Enter(f);
    }

    /** `coverage_complete_pending` */
    method CompletePending()
      requires Tied()
      modifies this`frames, counters, counters.cells, counters.entries
      ensures State() == PendingCompleted(p, old(State()))
    {
      if frames == [] {
        return;
      }
      var top := frames[|frames| - 1];
      if top.pending {
        counters.Finish(top.fn, top.pendingPc, false);
        frames := frames[..|frames| - 1] + [top.(pending := false)];
      }
    }

    method Stop(final: Status)
      modifies this`frames, this`status
      ensures frames == [] && status == final
    {
      frames, status := [], final;
    }

    method SetTop(f: Frame)
      requires frames != []
      modifies this`frames
      ensures frames == Below(old(frames)) + [f]
    {
      frames := frames[..|frames| - 1] + [f];
    }

    /** `execution_builtin` with the answer it gets. */
    method RunBuiltin(b: Builtin, o: Outcome)
      requires Tied() && frames != [] && status.Yielded?
      modifies this, counters, counters.cells, counters.entries
      ensures State() == Halfway(p, old(counters.State()), BuiltinEffect(p, Below(old(frames)), Top(old(frames)), b, o))
    {
      hide Entered, Bound;
      var below, f := frames[..|frames| - 1], frames[|frames| - 1];
      assert frames == below + [f];
      match o {
        case Returned(v) => SetTop(Push(f, v));
        case Waits(w) => status := Waiting(w);
        case Exits => Stop(Exited);
        case Invokes(h, passed) =>
          if b.async && h < |p.fs| && p.fs[h].isAsync && !p.fs[h].pure && |passed| == |p.fs[h].params| {
            FramePush(h, passed);
            assert frames == below + [f, Top(frames)];
          } else {
            Stop(Trapped);
          }
        case Ended => Stop(Trapped);
        case Fails => Stop(Trapped);
      }
    }

    /** A call that passed its checks: a builtin answers, a function gets a frame. */
    method Invoke(name: Name, arguments: seq<Value>, a: Answer)
      requires Tied() && frames != [] && status.Yielded?
      requires Known(p.table, p.fs, name) && |arguments| == ArityOf(p.table, p.fs, name)
      modifies this, counters, counters.cells, counters.entries
      ensures State() == Halfway(p, Marked(old(counters.State()), name in p.table && a.gap),
                                 CallEffect(p, Below(old(frames)), Top(old(frames)), name, arguments, a.outcome))
    {
      hide BuiltinEffect, Entered, Bound;
      if name in p.table {
        if a.gap {
          counters.Gap();
        }
        RunBuiltin(p.table[name], a.outcome);
      } else {
        ghost var below, f := Below(frames), Top(frames);
        FramePush(Named(p.fs, name), arguments);
        assert frames == below + [f, Top(frames)];
      }
    }

    /** CALL, AWAIT_CALL, CALL_VALUE and AWAIT_VALUE. */
    method CallInstruction(ins: Instruction, a: Answer)
      requires Tied() && (ins.Call? || ins.CallValue?) && frames != [] && status.Yielded? && Top(frames).fn < |p.fs|
      modifies this, counters, counters.cells, counters.entries
      ensures State() == Halfway(p, Marked(old(counters.State()), BuiltinCalled(p, Top(old(frames)), ins) && a.gap),
                                 Effect1(p, Below(old(frames)), Top(old(frames)), ins, a.outcome))
    {
      hide Halfway, CallEffect, CallEdge, CString;
      var f := frames[|frames| - 1];
      var n := |f.stack|;
      var needed := if ins.Call? then ins.arity else ins.arity + 1;
      if n < needed {
        Stop(Trapped);
        Halted(p, counters.State());
        return;
      }
      var arguments := f.stack[n - ins.arity..];
      var name: Name := [];
      if ins.Call? {
        name := ins.name;
      } else {
        var callable := f.stack[n - needed];
        if !callable.Str? || 0 in callable.text {
          Stop(Trapped);
          Halted(p, counters.State());
          return;
        }
        name := CString(callable.text);
      }
      if !MayCall(p, p.fs[f.fn], name, ins.arity, ins.awaited) {
        Stop(Trapped);
        Halted(p, counters.State());
        return;
      }
      SetTop(f.(stack := f.stack[..n - needed]));
      Invoke(name, arguments, a);
    }

    /** RETURN */
    method ReturnInstruction()
      requires frames != [] && status.Yielded? && Top(frames).fn < |p.fs| && Tied()
      modifies this, counters, counters.cells, counters.entries
      ensures State() == Halfway(p, old(counters.State()), Effect1(p, Below(old(frames)), Top(old(frames)), Return, Fails))
    {
      hide Finished;
      var below, f := frames[..|frames| - 1], frames[|frames| - 1];
      var n := |f.stack|;
      if n == 0 || (p.fs[f.fn].isAsync && p.fs[f.fn].name == MAIN && !f.stack[n - 1].Unit?) {
        Stop(Trapped);
        return;
      }
      frames := below;
      if |frames| == 0 {
        status := Completed(f.stack[n - 1]);
      } else {
        SetTop(Push(frames[|frames| - 1], f.stack[n - 1]));
      }
      CompletePending();
    }

    /** The instructions that stay within the top frame. */
    method PlainInstruction(ins: Instruction, o: Outcome) returns (branched: bool)
      requires Tied() && !(ins.Call? || ins.CallValue? || ins.Return?) && frames != [] && status.Yielded? && Top(frames).fn < |p.fs|
      modifies this`frames, this`status
      ensures State() == Halfway(p, old(counters.State()), Effect1(p, Below(old(frames)), Top(old(frames)), ins, o))
      ensures var e := Effect1(p, Below(old(frames)), Top(old(frames)), ins, o); branched == (e.Next? && e.branched)
    {
      var f := frames[|frames| - 1];
      var n := |f.stack|;
      branched := false;
      var failed := false;
      match ins {
        case Const(v) => f := f.(stack := f.stack + [v]);
        case Load(name) =>
          if name in f.locals {
            f := f.(stack := f.stack + [f.locals[name]]);
          } else {
            failed := true;
          }
        case Store(name) =>
          if n == 0 {
            failed := true;
          } else {
            f := f.(stack := f.stack[..n - 1], locals := f.locals[name := f.stack[n - 1]]);
          }
        case Pop =>
          if n == 0 {
            failed := true;
          } else {
            f := f.(stack := f.stack[..n - 1]);
          }
        case Jump(target) => f := f.(pc := target);
        case JumpFalse(target) =>
          if n == 0 || !f.stack[n - 1].Bool? {
            failed := true;
          } else if f.stack[n - 1].boolean {
            f := f.(stack := f.stack[..n - 1]);
          } else {
            branched := true;
            f := f.(stack := f.stack[..n - 1], pc := target);
          }
        case IterNext(name, item, target) =>
          if name !in f.locals || !f.locals[name].Iter? {
            failed := true;
          } else if o.Returned? {
            f := f.(locals := f.locals[item := o.value]);
          } else if o.Ended? {
            branched := true;
            f := f.(pc := target);
          } else {
            failed := true;
          }
      }
      if failed {
        Stop(Trapped);
      } else {
        SetTop(f);
      }
    }

    /** The switch of the dispatch loop, with the top frame's counter already advanced. */
    method Execute(ins: Instruction, a: Answer) returns (branched: bool)
      requires frames != [] && status.Yielded? && Top(frames).fn < |p.fs| && Tied()
      modifies this, counters, counters.cells, counters.entries
      ensures State() == Halfway(p, Marked(old(counters.State()), BuiltinCalled(p, Top(old(frames)), ins) && a.gap),
                                 Effect1(p, Below(old(frames)), Top(old(frames)), ins, a.outcome))
      ensures var e := Effect1(p, Below(old(frames)), Top(old(frames)), ins, a.outcome); branched == (e.Next? && e.branched)
    {
      hide Effect1, Halfway, Callee;
      ghost var below, f := Below(frames), Top(frames);
      NoCallee(p, f, ins);
      branched := false;
      if ins.Call? || ins.CallValue? {
        CallInstruction(ins, a);
        NotBranched(p, below, f, ins, a.outcome);
      } else if ins.Return? {
        ReturnInstruction();
        ReturnIgnores(p, below, f, a.outcome);
        NotBranched(p, below, f, ins, a.outcome);
      } else {
        branched := PlainInstruction(ins, a.outcome);
      }
    }

    /** The coverage bookkeeping after an instruction. */
    method Close(depth: nat, f: nat, pc: nat, branched: bool)
      requires depth > 0 && (status.Waiting? ==> depth <= |frames|) && Tied()
      modifies this`frames, counters, counters.cells, counters.entries
      ensures State() == Closing(p, old(State()), depth, f, pc, branched)
    {
      hide Finished;
      if !status.Trapped? && !status.Exited? {
        if |frames| > depth || status.Waiting? {
          frames := frames[depth - 1 := frames[depth - 1].(pending := true, pendingPc := pc)];
        } else {
          counters.Finish(f, pc, branched);
        }
      }
    }

    /** One pass of the loop in `vm_execution_advance`. */
    method DispatchOne(a: Answer)
      requires Valid() && status.Yielded?
      modifies this, counters, counters.cells, counters.entries
      ensures State() == Dispatched(p, old(State()), a)
    {
      hide Effect1, Halfway, Settled, Attempted, Finished, Shaped, Callee, Closing;
      var f := frames[|frames| - 1];
      if f.pc >= |p.fs[f.fn].ins| {
        Stop(Trapped);
        return;
      }
      var depth := |frames|;
      counters.Attempt(f.fn, f.pc);
      var ins := p.fs[f.fn].ins[f.pc];
      var g := f.(pc := f.pc + 1);
      ghost var below, attempted := Below(frames), counters.State();
      SetTop(g);
      assert Below(frames) == below;
      var branched := Execute(ins, a);
      ghost var e := Effect1(p, below, g, ins, a.outcome);
      EffectShaped(p, below, g, ins, a.outcome);
      HalfwaySettles(p, Marked(attempted, BuiltinCalled(p, g, ins) && a.gap), below, g, ins, e, f.pc);
      CalleeSame(p, f, g, ins);
      Close(depth, f.fn, f.pc, branched);
    }

    /** `vm_execution_advance`: at most `budget` instructions, one answer for each. */
    method Advance(budget: nat, answers: seq<Answer>)
      requires Valid() && |answers| == budget
      modifies this, counters, counters.cells, counters.entries
      ensures Valid() && State() == Run(p, old(State()), Dispatches(answers))
    {
      hide Dispatched, StackOk, Run;
      var k := 0;
      ghost var start := State();
      NoDispatch(p, start, answers);
      while k < budget && status.Yielded?
        invariant 0 <= k <= budget && Valid()
        invariant State() == Run(p, start, Dispatches(answers[..k]))
      {
        OneMoreDispatch(p, start, answers, k);
        DispatchKeepsStack(p, State(), answers[k]);
        DispatchOne(answers[k]);
        k := k + 1;
      }
      if k < budget {
        NoMoreDispatches(p, start, answers, k);
      }
      assert answers[..|answers|] == answers;
    }

    /** Pushes what a completion brought and ends the suspended call. */
    method Resume(v: Value)
      requires Valid() && status.Waiting?
      modifies this, counters, counters.cells, counters.entries
      ensures Valid() && State() == Resumed(p, old(State()), v)
    {
      ResumeKeepsStack(p, State(), v);
      SetTop(Push(frames[|frames| - 1], v));
      status := Yielded;
      CompletePending();
    }

    /** `vm_execution_complete_print`; refused unless a print is awaited. */
    method CompletePrint(ok: bool) returns (accepted: bool)
      requires Valid()
      modifies this, counters, counters.cells, counters.entries
      ensures Valid() && State() == PrintCompleted(p, old(State()), ok)
      ensures accepted == (old(status) == Waiting(ForPrint))
    {
      hide Resumed;
      if status != Waiting(ForPrint) {
        return false;
      }
      accepted := true;
      NoFrames(p, State());
      if ok {
        Resume(Void);
      } else {
        Stop(Trapped);
      }
    }

    /** `vm_execution_complete_read`; refused unless a read is awaited. */
    method CompleteRead(result: Option<Value>) returns (accepted: bool)
      requires Valid()
      modifies this, counters, counters.cells, counters.entries
      ensures Valid() && State() == ReadCompleted(p, old(State()), result)
      ensures accepted == (old(status) == Waiting(ForRead))
    {
      hide Resumed, ValidRead;
      if status != Waiting(ForRead) {
        return false;
      }
      accepted := true;
      NoFrames(p, State());
      if result.Some? && ValidRead(result.value) {
        Resume(result.value);
      } else {
        Stop(Trapped);
      }
    }
  }

  lemma NoDispatch(p: Image, m: Machine, answers: seq<Answer>)
    ensures Run(p, m, Dispatches(answers[..0])) == m
  {
  }

  lemma OneMoreDispatch(p: Image, m: Machine, answers: seq<Answer>, k: nat)
    requires k < |answers|
    ensures Run(p, m, Dispatches(answers[..k + 1])) == Dispatched(p, Run(p, m, Dispatches(answers[..k])), answers[k])
  {
    hide Dispatched;
    var events := Dispatches(answers[..k + 1]);
    assert events[..|events| - 1] == Dispatches(answers[..k]);
  }

  /** Once the machine has stopped or waits, dispatching changes nothing. */
  lemma {:induction false} NoMoreDispatches(p: Image, m: Machine, answers: seq<Answer>, k: nat)
    requires k <= |answers| && !Run(p, m, Dispatches(answers[..k])).status.Yielded?
    ensures Run(p, m, Dispatches(answers)) == Run(p, m, Dispatches(answers[..k]))
    decreases |answers| - k
  {
    hide Run;
    if k < |answers| {
      OneMoreDispatch(p, m, answers, k);
      NoMoreDispatches(p, m, answers, k + 1);
    } else {
      assert answers[..k] == answers;
    }
  }

  lemma ReturnIgnores(p: Image, below: seq<Frame>, f: Frame, o: Outcome)
    requires f.fn < |p.fs|
    ensures Effect1(p, below, f, Return, o) == Effect1(p, below, f, Return, Fails)
  {
  }

  lemma Halted(p: Image, c: Coverage)
    ensures Halfway(p, c, Failed) == Machine([], Trapped, c)
  {
  }

  function Marked(c: Coverage, gap: bool): Coverage {
    if gap then c.(gap := true) else c
  }

  predicate BuiltinCalled(p: Image, f: Frame, ins: Instruction)
    requires f.fn < |p.fs|
  {
    Callee(p, f, ins).Some? && Callee(p, f, ins).value in p.table
  }

  lemma CalleeSame(p: Image, f: Frame, g: Frame, ins: Instruction)
    requires f.fn < |p.fs| && g == f.(pc := f.pc + 1)
    ensures Callee(p, f, ins) == Callee(p, g, ins)
  {
  }

  lemma NoCallee(p: Image, f: Frame, ins: Instruction)
    requires f.fn < |p.fs|
    ensures !(ins.Call? || ins.CallValue?) ==> Callee(p, f, ins).None?
  {
  }

  lemma NotBranched(p: Image, below: seq<Frame>, f: Frame, ins: Instruction, o: Outcome)
    requires f.fn < |p.fs| && (ins.Call? || ins.CallValue? || ins.Return?)
    ensures var e := Effect1(p, below, f, ins, o); e.Next? ==> !e.branched
  {
  }

  /** The bookkeeping after the instruction, by depth and status as the source decides it. */
  function Closing(p: Image, m: Machine, depth: nat, f: nat, pc: nat, branched: bool): Machine
    requires depth > 0 && (m.status.Waiting? ==> depth <= |m.frames|)
  {
    if m.status.Trapped? || m.status.Exited? then m
    else if |m.frames| > depth || m.status.Waiting? then m.(frames := SetPending(m.frames, depth, pc))
    else m.(coverage := Finished(p, m.coverage, f, pc, branched))
  }

  lemma HalfwaySettles(p: Image, c: Coverage, below: seq<Frame>, g: Frame, ins: Instruction, e: Effect, pc: nat)
    requires g.fn < |p.fs| && Shaped(p, below, g, ins, e)
    ensures var half, depth := Halfway(p, c, e), |below| + 1;
            && (half.status.Waiting? ==> depth <= |half.frames|)
            && (e.Pushed? || e.Suspended? ==> depth <= |e.frames|)
            && Settled(p, c, e, depth, g.fn, pc) == Closing(p, half, depth, g.fn, pc, e.Next? && e.branched)
  {
    hide Finished, Link, Entered;
  }
}
