/** Coverage counters across calls, waits and returns. */
module CoverageProofs {
  import opened Bytecode
  import opened Interpreter
  import opened InterpreterProofs

  // ----- What the counters mean -----

  /** Attempts of an instruction that have not completed. */
  function Owed(c: Coverage, f: nat, pc: nat): int {
    if HasCell(c, f, pc) then c.cells[f][pc].attempted - c.cells[f][pc].completed else 0
  }

  function Here(g: Frame, f: nat, pc: nat): nat {
    if g.pending && g.fn == f && g.pendingPc == pc then 1 else 0
  }

  /** Frames whose call at that instruction is under way. */
  function PendingAt(frames: seq<Frame>, f: nat, pc: nat): nat {
    if frames == [] then 0 else PendingAt(Below(frames), f, pc) + Here(Top(frames), f, pc)
  }

  predicate CellsOk(p: Image, c: Coverage) {
    && |c.cells| == |p.fs| == |c.entries|
    && (forall f :: 0 <= f < |p.fs| ==> |c.cells[f]| == |p.fs[f].ins|)
  }

  ghost predicate Balanced(c: Coverage, frames: seq<Frame>) {
    forall f: nat, pc: nat :: HasCell(c, f, pc) ==> Owed(c, f, pc) == PendingAt(frames, f, pc)
  }

  predicate CellOk(p: Image, f: nat, pc: nat, cell: Cell) {
    if BranchAt(p, f, pc) then cell.completed == cell.fallthrough + cell.branched
    else cell.fallthrough == 0 && cell.branched == 0
  }

  ghost predicate BranchesOk(p: Image, c: Coverage) {
    forall f: nat, pc: nat :: HasCell(c, f, pc) ==> CellOk(p, f, pc, c.cells[f][pc])
  }

  predicate AtCall(p: Image, g: Frame) {
    g.pending ==> InstructionAt(p, g.fn, g.pendingPc).Some? && IsCall(InstructionAt(p, g.fn, g.pendingPc).value)
  }

  /** Every frame below the top has a call under way, the top one exactly while it waits. */
  predicate FrameMarks(p: Image, frames: seq<Frame>, waiting: bool) {
    && (forall i :: 0 <= i < |frames| - 1 ==> frames[i].pending)
    && (frames != [] ==> (Top(frames).pending <==> waiting))
    && (forall i :: 0 <= i < |frames| ==> AtCall(p, frames[i]))
  }

  predicate Running(s: Status) {
    s.Yielded? || s.Waiting? || s.Completed?
  }

  ghost predicate CoverageOk(p: Image, m: Machine) {
    && CellsOk(p, m.coverage) && FrameMarks(p, m.frames, m.status.Waiting?)
    && (!m.coverage.overflow ==> BranchesOk(p, m.coverage))
    && (!m.coverage.overflow && Running(m.status) ==> Balanced(m.coverage, m.frames))
  }

  // ----- Counter operations -----

  lemma AttemptOwes(p: Image, c: Coverage, f: nat, pc: nat)
    requires CellsOk(p, c) && HasCell(c, f, pc)
    ensures CellsOk(p, Attempted(c, f, pc)) && (c.overflow ==> Attempted(c, f, pc).overflow)
    ensures forall g: nat, q: nat :: HasCell(Attempted(c, f, pc), g, q) <==> HasCell(c, g, q)
    ensures !Attempted(c, f, pc).overflow ==> forall g: nat, q: nat :: HasCell(c, g, q) ==>
              Owed(Attempted(c, f, pc), g, q) == Owed(c, g, q) + (if g == f && q == pc then 1 else 0)
    ensures BranchesOk(p, c) ==> BranchesOk(p, Attempted(c, f, pc))
  {
  }

  lemma FinishPays(p: Image, c: Coverage, f: nat, pc: nat, branched: bool)
    requires CellsOk(p, c) && HasCell(c, f, pc)
    ensures CellsOk(p, Finished(p, c, f, pc, branched)) && (c.overflow ==> Finished(p, c, f, pc, branched).overflow)
    ensures forall g: nat, q: nat :: HasCell(Finished(p, c, f, pc, branched), g, q) <==> HasCell(c, g, q)
    ensures !Finished(p, c, f, pc, branched).overflow ==> forall g: nat, q: nat :: HasCell(c, g, q) ==>
              Owed(Finished(p, c, f, pc, branched), g, q) == Owed(c, g, q) - (if g == f && q == pc then 1 else 0)
    ensures !Finished(p, c, f, pc, branched).overflow && BranchesOk(p, c) ==> BranchesOk(p, Finished(p, c, f, pc, branched))
  {
    hide BranchAt;
  }

  lemma EnterOwes(p: Image, c: Coverage, f: nat)
    requires CellsOk(p, c)
    ensures CellsOk(p, Entered(c, f)) && (c.overflow ==> Entered(c, f).overflow)
    ensures Entered(c, f).cells == c.cells
    ensures forall g: nat, q: nat :: HasCell(Entered(c, f), g, q) <==> HasCell(c, g, q)
    ensures forall g: nat, q: nat :: Owed(Entered(c, f), g, q) == Owed(c, g, q)
    ensures BranchesOk(p, c) ==> BranchesOk(p, Entered(c, f))
  {
  }

  // ----- Frames -----

  lemma PendingPush(frames: seq<Frame>, g: Frame, f: nat, pc: nat)
    ensures PendingAt(frames + [g], f, pc) == PendingAt(frames, f, pc) + Here(g, f, pc)
  {
    assert Below(frames + [g]) == frames;
  }

  lemma PendingSplit(frames: seq<Frame>, f: nat, pc: nat)
    requires frames != []
    ensures PendingAt(frames, f, pc) == PendingAt(Below(frames), f, pc) + Here(Top(frames), f, pc)
  {
  }

  lemma PendingSame(a: seq<Frame>, b: seq<Frame>, f: nat, pc: nat)
    requires a != [] && b != [] && Below(a) == Below(b) && SameFrame(Top(a), Top(b))
    ensures PendingAt(a, f, pc) == PendingAt(b, f, pc)
  {
  }

  lemma MarksSame(p: Image, a: seq<Frame>, b: seq<Frame>, waiting: bool)
    requires a != [] && b != [] && Below(a) == Below(b) && SameFrame(Top(a), Top(b)) && FrameMarks(p, a, waiting)
    ensures FrameMarks(p, b, waiting)
  {
    forall i | 0 <= i < |b|
      ensures AtCall(p, b[i]) && SameFrame(a[i], b[i])
    {
      assert AtCall(p, a[i]);
      assert i < |b| - 1 ==> b[i] == Below(b)[i] && a[i] == Below(a)[i];
    }
  }

  lemma MarksBelow(p: Image, frames: seq<Frame>, waiting: bool)
    requires frames != [] && FrameMarks(p, frames, waiting)
    ensures FrameMarks(p, Below(frames), true)
  {
  }

  /** A call under way is marked on the frame that made it. */
  lemma MarksAdd(p: Image, below: seq<Frame>, g: Frame, waiting: bool)
    requires FrameMarks(p, below, true) && AtCall(p, g) && (g.pending <==> waiting)
    ensures FrameMarks(p, below + [g], waiting)
  {
    forall i | 0 <= i < |below + [g]|
      ensures AtCall(p, (below + [g])[i]) && (i < |below| ==> (below + [g])[i].pending)
    {
      if i < |below| {
        assert (below + [g])[i] == below[i];
        assert i < |below| - 1 ==> below[i].pending;
        assert i == |below| - 1 ==> Top(below).pending;
      }
    }
  }

  // ----- Settling an instruction -----

  /** The counters between the attempt of an instruction and its settling. */
  ghost predicate Attempting(p: Image, c: Coverage, frames: seq<Frame>, f: nat, pc: nat) {
    && CellsOk(p, c) && HasCell(c, f, pc)
    && (!c.overflow ==>
          && BranchesOk(p, c)
          && forall g: nat, q: nat :: HasCell(c, g, q) ==>
               Owed(c, g, q) == PendingAt(frames, g, q) + (if g == f && q == pc then 1 else 0))
  }

  lemma PendingEverywhere(a: seq<Frame>, b: seq<Frame>)
    requires a != [] && b != [] && Below(a) == Below(b) && SameFrame(Top(a), Top(b))
    ensures forall f, pc :: PendingAt(a, f, pc) == PendingAt(b, f, pc)
  {
    forall f, pc
      ensures PendingAt(a, f, pc) == PendingAt(b, f, pc)
    {
      PendingSame(a, b, f, pc);
    }
  }

  lemma NextCovered(p: Image, c: Coverage, frames: seq<Frame>, next: seq<Frame>, f: nat, pc: nat, branched: bool)
    requires Attempting(p, c, frames, f, pc) && frames != [] && FrameMarks(p, frames, false)
    requires next != [] && Below(next) == Below(frames) && SameFrame(Top(next), Top(frames))
    ensures CoverageOk(p, Machine(next, Yielded, Finished(p, c, f, pc, branched)))
  {
    hide BranchesOk, Finished, PendingAt, Owed, CellsOk, HasCell, AtCall;
    FinishPays(p, c, f, pc, branched);
    MarksSame(p, frames, next, false);
    PendingEverywhere(frames, next);
  }

  lemma SuspendedCovered(p: Image, c: Coverage, frames: seq<Frame>, next: seq<Frame>, pc: nat, wait: Wait)
    requires frames != [] && Attempting(p, c, frames, Top(frames).fn, pc) && FrameMarks(p, frames, false)
    requires |next| == |frames| && Below(next) == Below(frames) && SameFrame(Top(next), Top(frames))
    requires InstructionAt(p, Top(frames).fn, pc).Some? && IsCall(InstructionAt(p, Top(frames).fn, pc).value)
    ensures CoverageOk(p, Machine(SetPending(next, |frames|, pc), Waiting(wait), c))
  {
    hide BranchesOk, Owed, CellsOk, HasCell;
    var marked := Top(next).(pending := true, pendingPc := pc);
    assert SetPending(next, |frames|, pc) == Below(next) + [marked];
    MarksBelow(p, frames, false);
    MarksAdd(p, Below(next), marked, true);
    Marking(frames, Below(next), marked, Top(frames).fn, pc);
  }

  lemma Marking(frames: seq<Frame>, below: seq<Frame>, g: Frame, f: nat, pc: nat)
    requires frames != [] && Below(frames) == below && !Top(frames).pending
    requires g.pending && g.fn == f && g.pendingPc == pc
    ensures forall h: nat, q: nat :: PendingAt(below + [g], h, q) == PendingAt(frames, h, q) + (if h == f && q == pc then 1 else 0)
  {
    hide PendingAt;
    forall h: nat, q: nat
      ensures PendingAt(below + [g], h, q) == PendingAt(frames, h, q) + (if h == f && q == pc then 1 else 0)
    {
      PendingPush(below, g, h, q);
      PendingSplit(frames, h, q);
    }
  }

  lemma Unmarked(frames: seq<Frame>, g: Frame)
    requires !g.pending
    ensures forall f: nat, pc: nat :: PendingAt(frames + [g], f, pc) == PendingAt(frames, f, pc)
  {
    hide PendingAt;
    forall f: nat, pc: nat
      ensures PendingAt(frames + [g], f, pc) == PendingAt(frames, f, pc)
    {
      PendingPush(frames, g, f, pc);
    }
  }

  lemma PushedCovered(p: Image, c: Coverage, frames: seq<Frame>, next: seq<Frame>, pc: nat)
    requires frames != [] && Attempting(p, c, frames, Top(frames).fn, pc) && FrameMarks(p, frames, false)
    requires |next| == |frames| + 1 && Below(Below(next)) == Below(frames) && SameFrame(Top(Below(next)), Top(frames))
    requires !Top(next).pending
    requires InstructionAt(p, Top(frames).fn, pc).Some? && IsCall(InstructionAt(p, Top(frames).fn, pc).value)
    ensures CoverageOk(p, Machine(SetPending(next, |frames|, pc), Yielded, Entered(c, Top(next).fn)))
  {
    hide BranchesOk, Owed, CellsOk, HasCell, PendingAt, Entered;
    var marked := Top(Below(next)).(pending := true, pendingPc := pc);
    var caller := Below(Below(next)) + [marked];
    assert SetPending(next, |frames|, pc) == caller + [Top(next)];
    MarksBelow(p, frames, false);
    MarksAdd(p, Below(frames), marked, true);
    MarksAdd(p, caller, Top(next), false);
    Marking(frames, Below(frames), marked, Top(frames).fn, pc);
    Unmarked(caller, Top(next));
    EnterOwes(p, c, Top(next).fn);
  }

  /** Completing the call of the top frame. */
  lemma CompletedCall(p: Image, c: Coverage, frames: seq<Frame>, extra: nat, extraPc: nat, owing: bool)
    requires frames != [] && FrameMarks(p, frames, true) && CellsOk(p, c)
    requires !c.overflow ==> BranchesOk(p, c)
    requires !c.overflow ==> forall g: nat, q: nat :: HasCell(c, g, q) ==>
               Owed(c, g, q) == PendingAt(frames, g, q) + (if owing && g == extra && q == extraPc then 1 else 0)
    ensures var m := PendingCompleted(p, Machine(frames, Yielded, c));
            && CellsOk(p, m.coverage) && FrameMarks(p, m.frames, false) && m.frames != [] && m.status.Yielded?
            && (forall g: nat, q: nat :: HasCell(m.coverage, g, q) <==> HasCell(c, g, q))
            && (!m.coverage.overflow ==>
                  && BranchesOk(p, m.coverage)
                  && forall g: nat, q: nat :: HasCell(c, g, q) ==>
                       Owed(m.coverage, g, q) == PendingAt(m.frames, g, q) + (if owing && g == extra && q == extraPc then 1 else 0))
  {
    hide BranchesOk, Owed, PendingAt, Finished;
    var top := Top(frames);
    assert AtCall(p, top) by {
      assert AtCall(p, frames[|frames| - 1]);
    }
    HasCallCell(p, c, top);
    hide CellsOk, HasCell;
    FinishPays(p, c, top.fn, top.pendingPc, false);
    var done := top.(pending := false);
    MarksBelow(p, frames, true);
    MarksAdd(p, Below(frames), done, false);
    Marking(Below(frames) + [done], Below(frames), top, top.fn, top.pendingPc);
    assert Below(Below(frames) + [done]) == Below(frames);
    assert Below(frames) + [top] == frames;
  }

  lemma HasCallCell(p: Image, c: Coverage, g: Frame)
    requires CellsOk(p, c) && AtCall(p, g) && g.pending
    ensures HasCell(c, g.fn, g.pendingPc)
  {
  }

  lemma PoppedCovered(p: Image, c: Coverage, frames: seq<Frame>, next: seq<Frame>, f: nat, pc: nat)
    requires frames != [] && Below(frames) != [] && Attempting(p, c, frames, f, pc) && FrameMarks(p, frames, false)
    requires next != [] && Below(next) == Below(Below(frames)) && SameFrame(Top(next), Top(Below(frames)))
    ensures var m := PendingCompleted(p, Machine(next, Yielded, c));
            CoverageOk(p, m.(coverage := Finished(p, m.coverage, f, pc, false)))
  {
    hide BranchesOk, Owed, PendingAt, Finished, CellsOk, HasCell, PendingCompleted;
    MarksBelow(p, frames, false);
    MarksSame(p, Below(frames), next, true);
    PendingEverywhere(Below(frames), next);
    assert Below(frames) + [Top(frames)] == frames;
    Unmarked(Below(frames), Top(frames));
    CompletedCall(p, c, next, f, pc, true);
    FinishPays(p, PendingCompleted(p, Machine(next, Yielded, c)).coverage, f, pc, false);
  }

  lemma SettledCovered(p: Image, c: Coverage, frames: seq<Frame>, g: Frame, ins: Instruction, e: Effect, pc: nat)
    requires frames != [] && SameFrame(g, Top(frames)) && g.fn < |p.fs|
    requires Attempting(p, c, frames, g.fn, pc) && FrameMarks(p, frames, false)
    requires InstructionAt(p, g.fn, pc) == Some(ins) && Shaped(p, Below(frames), g, ins, e)
    requires e.Pushed? || e.Suspended? ==> |frames| <= |e.frames|
    ensures CoverageOk(p, Settled(p, c, e, |frames|, g.fn, pc))
  {
    hide CoverageOk, Attempting, FrameMarks, Link, Finished, PendingCompleted, Entered;
    match e {
      case Next(next, branched) => NextCovered(p, c, frames, next, g.fn, pc, branched);
      case Suspended(next, wait) => SuspendedCovered(p, c, frames, next, pc, wait);
      case Pushed(next) => PushedCovered(p, c, frames, next, pc);
      case Popped(next) => PoppedCovered(p, c, frames, next, g.fn, pc);
      case Finishes(v) => LastCovered(p, c, frames, g.fn, pc, v);
      case Failed => StoppedCovered(p, c, frames, g.fn, pc);
      case Exiting => StoppedCovered(p, c, frames, g.fn, pc);
    }
  }

  lemma LastCovered(p: Image, c: Coverage, frames: seq<Frame>, f: nat, pc: nat, v: Value)
    requires frames != [] && Below(frames) == [] && Attempting(p, c, frames, f, pc) && FrameMarks(p, frames, false)
    ensures CoverageOk(p, Machine([], Completed(v), Finished(p, c, f, pc, false)))
  {
    hide BranchesOk, Owed, PendingAt, Finished, CellsOk, HasCell;
    FinishPays(p, c, f, pc, false);
    assert frames == [] + [Top(frames)];
    Unmarked([], Top(frames));
  }

  lemma StoppedCovered(p: Image, c: Coverage, frames: seq<Frame>, f: nat, pc: nat)
    requires Attempting(p, c, frames, f, pc)
    ensures CoverageOk(p, Machine([], Trapped, c)) && CoverageOk(p, Machine([], Exited, c))
  {
  }

  lemma AttemptCovered(p: Image, m: Machine, f: nat, pc: nat, gap: bool)
    requires CoverageOk(p, m) && m.status.Yielded? && InstructionAt(p, f, pc).Some?
    ensures var c := Attempted(m.coverage, f, pc);
            Attempting(p, if gap then c.(gap := true) else c, m.frames, f, pc)
  {
    hide PendingAt, BranchAt;
    AttemptOwes(p, m.coverage, f, pc);
    hide Attempted;
    GapOnly(p, Attempted(m.coverage, f, pc), m.frames, f, pc);
  }

  lemma GapOnly(p: Image, c: Coverage, frames: seq<Frame>, f: nat, pc: nat)
    ensures Attempting(p, c, frames, f, pc) ==> Attempting(p, c.(gap := true), frames, f, pc)
  {
    hide PendingAt, BranchAt;
    assert forall g: nat, q: nat :: Owed(c.(gap := true), g, q) == Owed(c, g, q);
  }

  lemma DispatchCovered(p: Image, m: Machine, a: Answer)
    requires CoverageOk(p, m) && StackOk(p, m)
    ensures CoverageOk(p, Dispatched(p, m, a))
  {
    hide Effect1, Settled, Shaped, Linked, Attempted, Executes, FrameMarks, Balanced, BranchesOk, CellsOk;
    if m.status.Yielded? {
      var f := Top(m.frames);
      var ins := InstructionAt(p, f.fn, f.pc);
      if ins.Some? {
        var g := f.(pc := f.pc + 1);
        EffectShaped(p, Below(m.frames), g, ins.value, a.outcome);
        EffectDepth(p, Below(m.frames), g, ins.value, a.outcome);
        AttemptCovered(p, m, f.fn, f.pc, Executes(p, m).Some? && a.gap);
        var c := if Executes(p, m).Some? && a.gap then Attempted(m.coverage, f.fn, f.pc).(gap := true)
                 else Attempted(m.coverage, f.fn, f.pc);
        SettledCovered(p, c, m.frames, g, ins.value, Effect1(p, Below(m.frames), g, ins.value, a.outcome), f.pc);
      } else {
        TrapCovered(p, m);
      }
    }
  }

  lemma TrapCovered(p: Image, m: Machine)
    requires CoverageOk(p, m)
    ensures CoverageOk(p, Stopped(m, Trapped))
  {
  }

  lemma ResumeCovered(p: Image, m: Machine, v: Value)
    requires CoverageOk(p, m) && m.status.Waiting? && m.frames != []
    ensures CoverageOk(p, Resumed(p, m, v))
  {
    hide BranchesOk, Owed, PendingAt, Finished, CellsOk, HasCell, PendingCompleted;
    var frames := Below(m.frames) + [Push(Top(m.frames), v)];
    MarksSame(p, m.frames, frames, true);
    PendingEverywhere(m.frames, frames);
    CompletedCall(p, m.coverage, frames, 0, 0, false);
  }

  lemma StepCovered(p: Image, m: Machine, e: Event)
    requires CoverageOk(p, m) && StackOk(p, m)
    ensures CoverageOk(p, Step(p, m, e))
  {
    hide CoverageOk, Dispatched, Resumed, ValidRead, StackOk;
    TrapCovered(p, m);
    match e {
      case Dispatch(a) => DispatchCovered(p, m, a);
      case CompletePrint(ok) =>
        if m.frames != [] && m.status.Waiting? {
          ResumeCovered(p, m, Void);
        }
      case CompleteRead(result) =>
        if m.frames != [] && m.status.Waiting? && result.Some? {
          ResumeCovered(p, m, result.value);
        }
    }
  }

  lemma {:induction false} RunCovered(p: Image, m: Machine, events: seq<Event>)
    requires CoverageOk(p, m) && StackOk(p, m)
    ensures CoverageOk(p, Run(p, m, events))
  {
    hide CoverageOk, StackOk, Step;
    if events != [] {
      RunCovered(p, m, events[..|events| - 1]);
      RunKeepsStack(p, m, events[..|events| - 1]);
      StepCovered(p, Run(p, m, events[..|events| - 1]), events[|events| - 1]);
    }
  }

  lemma CreatedCovered(p: Image, ceiling: nat, f: nat, arguments: seq<Value>)
    requires f < |p.fs| && |arguments| == |p.fs[f].params|
    ensures CoverageOk(p, Created(p, ceiling, f, arguments)) && StackOk(p, Created(p, ceiling, f, arguments))
  {
    var c := FreshCoverage(p, ceiling);
    assert CellsOk(p, c) && BranchesOk(p, c);
    EnterOwes(p, c, f);
    var g := NewFrame(p, f, arguments);
    assert [g] == [] + [g];
    Unmarked([], g);
  }

  /** At every step boundary of every run, as long as no counter has hit its ceiling: every
      attempted instruction has completed or is a call under way in that many frames, and every
      completed branch went one of its two ways. */
  lemma CoverageBalance(p: Image, m: Machine, f: nat, pc: nat)
    requires Reachable(p, m) && !m.coverage.overflow && HasCell(m.coverage, f, pc)
    ensures Running(m.status) ==>
              m.coverage.cells[f][pc].attempted == m.coverage.cells[f][pc].completed + PendingAt(m.frames, f, pc)
    ensures BranchAt(p, f, pc) ==>
              m.coverage.cells[f][pc].completed == m.coverage.cells[f][pc].fallthrough + m.coverage.cells[f][pc].branched
    ensures !BranchAt(p, f, pc) ==> m.coverage.cells[f][pc].fallthrough == m.coverage.cells[f][pc].branched == 0
  {
    hide PendingAt;
    ReachableCovered(p, m);
    assert Running(m.status) ==> Owed(m.coverage, f, pc) == PendingAt(m.frames, f, pc);
    assert CellOk(p, f, pc, m.coverage.cells[f][pc]);
  }

  lemma ReachableCovered(p: Image, m: Machine)
    requires Reachable(p, m)
    ensures CoverageOk(p, m)
  {
    hide CoverageOk, StackOk, Run, Created;
    var ceiling: nat, f: nat, arguments: seq<Value>, events: seq<Event> :|
      f < |p.fs| && |arguments| == |p.fs[f].params| && Run(p, Created(p, ceiling, f, arguments), events) == m;
    CreatedCovered(p, ceiling, f, arguments);
    RunCovered(p, Created(p, ceiling, f, arguments), events);
  }

  /** Which frames have a call under way, and at which instruction. */
  lemma CallsUnderWay(p: Image, m: Machine, i: nat)
    requires Reachable(p, m) && i < |m.frames|
    ensures m.frames[i].pending <==> i < |m.frames| - 1 || m.status.Waiting?
    ensures m.frames[i].pending ==> InstructionAt(p, m.frames[i].fn, m.frames[i].pendingPc).Some?
                                    && IsCall(InstructionAt(p, m.frames[i].fn, m.frames[i].pendingPc).value)
  {
    hide Reachable, CellsOk, Balanced, BranchesOk;
    ReachableCovered(p, m);
    assert AtCall(p, m.frames[i]);
  }

  /** When the program has completed, every attempt has completed. */
  lemma NothingOwedAtEnd(p: Image, m: Machine, f: nat, pc: nat)
    requires Reachable(p, m) && m.status.Completed? && !m.coverage.overflow && HasCell(m.coverage, f, pc)
    ensures m.coverage.cells[f][pc].attempted == m.coverage.cells[f][pc].completed
  {
    ReachableStack(p, m);
    CoverageBalance(p, m, f, pc);
  }

  // ----- Entries -----

  /** The event pushes a frame of function `f`. */
  predicate Pushes(p: Image, m: Machine, e: Event, f: nat) {
    |Step(p, m, e).frames| > |m.frames| && Top(Step(p, m, e).frames).fn == f
  }

  /** The frames of function `f` pushed in a run. */
  function PushedIn(p: Image, m: Machine, events: seq<Event>, f: nat): nat {
    if events == [] then 0
    else
      var n := |events| - 1;
      PushedIn(p, m, events[..n], f) + if Pushes(p, Run(p, m, events[..n]), events[n], f) then 1 else 0
  }

  /** Overflow is never forgotten, and without it an entry counter grows by what was pushed. */
  ghost predicate EntriesStep(c: Coverage, r: Coverage, f: nat, pushed: nat) {
    && (c.overflow ==> r.overflow) && |r.entries| == |c.entries|
    && (f < |c.entries| && !r.overflow ==> r.entries[f] == c.entries[f] + pushed)
  }

  lemma SettledEntries(p: Image, c: Coverage, frames: seq<Frame>, g: Frame, ins: Instruction, e: Effect, pc: nat, f: nat)
    requires frames != [] && g.fn < |p.fs| && |c.entries| == |p.fs| && Shaped(p, Below(frames), g, ins, e)
    requires e.Pushed? || e.Suspended? ==> |frames| <= |e.frames|
    ensures var m := Settled(p, c, e, |frames|, g.fn, pc);
            EntriesStep(c, m.coverage, f, if |m.frames| > |frames| && Top(m.frames).fn == f then 1 else 0)
  {
    hide Link, BranchAt;
  }

  lemma DispatchEntries(p: Image, m: Machine, a: Answer, f: nat)
    requires StackOk(p, m) && |m.coverage.entries| == |p.fs|
    ensures var n := Dispatched(p, m, a);
            EntriesStep(m.coverage, n.coverage, f, if |n.frames| > |m.frames| && Top(n.frames).fn == f then 1 else 0)
  {
    hide Effect1, Settled, Shaped, Linked, Executes;
    if m.status.Yielded? {
      var g := Top(m.frames);
      var ins := InstructionAt(p, g.fn, g.pc);
      if ins.Some? {
        var h := g.(pc := g.pc + 1);
        EffectShaped(p, Below(m.frames), h, ins.value, a.outcome);
        EffectDepth(p, Below(m.frames), h, ins.value, a.outcome);
        var c := if Executes(p, m).Some? && a.gap then Attempted(m.coverage, g.fn, g.pc).(gap := true)
                 else Attempted(m.coverage, g.fn, g.pc);
        SettledEntries(p, c, m.frames, h, ins.value, Effect1(p, Below(m.frames), h, ins.value, a.outcome), g.pc, f);
      }
    }
  }

  lemma StepEntries(p: Image, m: Machine, e: Event, f: nat)
    requires StackOk(p, m) && |m.coverage.entries| == |p.fs|
    ensures EntriesStep(m.coverage, Step(p, m, e).coverage, f, if Pushes(p, m, e, f) then 1 else 0)
  {
    hide Dispatched, ValidRead, BranchAt;
    if e.Dispatch? {
      DispatchEntries(p, m, e.answer, f);
    }
  }

  lemma {:induction false} RunEntries(p: Image, m: Machine, events: seq<Event>, f: nat)
    requires StackOk(p, m) && |m.coverage.entries| == |p.fs|
    ensures EntriesStep(m.coverage, Run(p, m, events).coverage, f, PushedIn(p, m, events, f))
  {
    hide StackOk, Step, Pushes;
    if events != [] {
      var n := |events| - 1;
      RunEntries(p, m, events[..n], f);
      RunKeepsStack(p, m, events[..n]);
      StepEntries(p, Run(p, m, events[..n]), events[n], f);
    }
  }

  /** As long as no counter has hit its ceiling, the entry counter of a function is the number of its
      frames that the run has ever pushed, the first one included. */
  lemma EntriesCounted(p: Image, ceiling: nat, start: nat, arguments: seq<Value>, events: seq<Event>, f: nat)
    requires start < |p.fs| && |arguments| == |p.fs[start].params| && f < |p.fs|
    ensures var m := Created(p, ceiling, start, arguments);
            var c := Run(p, m, events).coverage;
            && |c.entries| == |p.fs|
            && (!c.overflow ==> c.entries[f] == PushedIn(p, m, events, f) + if f == start then 1 else 0)
  {
    var m := Created(p, ceiling, start, arguments);
    CreatedCovered(p, ceiling, start, arguments);
    hide PushedIn, Run;
    RunEntries(p, m, events, f);
  }
}
