/** What the counters of an instruction count over a whole run, in terms of what the run did
    there: how often it was dispatched, and which way its branches went. */
module CoverageCounts {
  import opened Bytecode
  import opened Interpreter
  import opened InterpreterProofs
  import opened CoverageProofs

  datatype Kind = Tried | WentOn | Jumped

  /** The event dispatches the instruction of function `f` at `pc`. */
  ghost predicate Tries(p: Image, m: Machine, e: Event, f: nat, pc: nat) {
    && e.Dispatch? && m.status.Yielded? && m.frames != [] && Top(m.frames).fn == f && Top(m.frames).pc == pc
    && InstructionAt(p, f, pc).Some?
  }

  /** At a JUMP_FALSE the operand is `b`; at an ITER_NEXT the iterator has an item exactly if `b`. */
  ghost predicate Goes(p: Image, m: Machine, e: Event, f: nat, pc: nat, b: bool) {
    && Tries(p, m, e, f, pc)
    && var g := Top(m.frames);
       match InstructionAt(p, f, pc).value
       case JumpFalse(_) => g.stack != [] && g.stack[|g.stack| - 1] == Bool(b)
       case IterNext(name, _, _) =>
         name in g.locals && g.locals[name].Iter? && (if b then e.answer.outcome.Returned? else e.answer.outcome.Ended?)
       case _ => false
  }

  ghost predicate Happens(p: Image, m: Machine, e: Event, f: nat, pc: nat, kind: Kind) {
    match kind
    case Tried => Tries(p, m, e, f, pc)
    case WentOn => Goes(p, m, e, f, pc, true)
    case Jumped => Goes(p, m, e, f, pc, false)
  }

  /** How often it happens in a run. */
  ghost function Times(p: Image, m: Machine, events: seq<Event>, f: nat, pc: nat, kind: Kind): nat {
    if events == [] then 0
    else
      var n := |events| - 1;
      Times(p, m, events[..n], f, pc, kind) + if Happens(p, Run(p, m, events[..n]), events[n], f, pc, kind) then 1 else 0
  }

  function Count(cell: Cell, kind: Kind): nat {
    match kind
    case Tried => cell.attempted
    case WentOn => cell.fallthrough
    case Jumped => cell.branched
  }

  function Capped(ceiling: nat, n: nat): nat {
    if n <= ceiling then n else ceiling
  }

  /** The counter has grown by `more`, up to its ceiling. */
  ghost predicate Grows(c: Coverage, r: Coverage, f: nat, pc: nat, kind: Kind, more: nat) {
    && r.ceiling == c.ceiling && HasCell(c, f, pc) && HasCell(r, f, pc)
    && (Count(c.cells[f][pc], kind) <= c.ceiling ==>
          Count(r.cells[f][pc], kind) == Capped(c.ceiling, Count(c.cells[f][pc], kind) + more))
  }

  function Bit(b: bool): nat {
    if b then 1 else 0
  }

  lemma GrowsTwice(a: Coverage, b: Coverage, c: Coverage, f: nat, pc: nat, kind: Kind, x: nat, y: nat)
    requires Grows(a, b, f, pc, kind, x) && Grows(b, c, f, pc, kind, y)
    ensures Grows(a, c, f, pc, kind, x + y)
  {
  }

  lemma FinishGrows(p: Image, c: Coverage, g: nat, q: nat, branched: bool, f: nat, pc: nat, kind: Kind)
    requires HasCell(c, f, pc)
    ensures Grows(c, Finished(p, c, g, q, branched), f, pc, kind,
                  Bit(g == f && q == pc && BranchAt(p, f, pc) && kind == if branched then Jumped else WentOn))
  {
    hide BranchAt;
  }

  lemma AttemptGrows(c: Coverage, g: nat, q: nat, f: nat, pc: nat, kind: Kind)
    requires HasCell(c, f, pc)
    ensures Grows(c, Attempted(c, g, q), f, pc, kind, Bit(g == f && q == pc && kind.Tried?))
  {
  }

  lemma SameGrows(c: Coverage, r: Coverage, f: nat, pc: nat, kind: Kind)
    requires HasCell(c, f, pc) && r.cells == c.cells && r.ceiling == c.ceiling
    ensures Grows(c, r, f, pc, kind, 0)
  {
  }

  /** Completing a call counts no branch. */
  lemma PendingGrows(p: Image, m: Machine, f: nat, pc: nat, kind: Kind)
    requires HasCell(m.coverage, f, pc) && (m.frames != [] ==> AtCall(p, Top(m.frames)))
    ensures Grows(m.coverage, PendingCompleted(p, m).coverage, f, pc, kind, 0)
  {
    hide Finished;
    if m.frames != [] && Top(m.frames).pending {
      FinishGrows(p, m.coverage, Top(m.frames).fn, Top(m.frames).pendingPc, false, f, pc, kind);
    } else {
      SameGrows(m.coverage, m.coverage, f, pc, kind);
    }
  }

  /** Which way an effect went, if the instruction is a branch. */
  ghost predicate Way(p: Image, e: Effect, ins: Instruction, kind: Kind) {
    e.Next? && Branches(ins) && kind == if e.branched then Jumped else WentOn
  }

  lemma SettledGrows(p: Image, c: Coverage, frames: seq<Frame>, g: Frame, ins: Instruction, e: Effect, pc: nat, f: nat, q: nat, kind: Kind)
    requires frames != [] && g.fn < |p.fs| && HasCell(c, f, q) && Shaped(p, Below(frames), g, ins, e)
    requires InstructionAt(p, g.fn, pc) == Some(ins) && FrameMarks(p, frames, false)
    requires e.Pushed? || e.Suspended? ==> |frames| <= |e.frames|
    ensures Grows(c, Settled(p, c, e, |frames|, g.fn, pc).coverage, f, q, kind, Bit(g.fn == f && pc == q && Way(p, e, ins, kind)))
  {
    hide Link, Finished, Entered, Grows, PendingCompleted;
    match e {
      case Next(next, branched) => FinishGrows(p, c, g.fn, pc, branched, f, q, kind);
      case Pushed(next) => EnterGrows(c, Top(next).fn, f, q, kind);
      case Suspended(_, _) => SameGrows(c, c, f, q, kind);
      case Popped(next) =>
        var m := Machine(next, Yielded, c);
        assert AtCall(p, frames[|frames| - 2]);
        PendingGrows(p, m, f, q, kind);
        Has(c, PendingCompleted(p, m).coverage, f, q, kind, 0);
        FinishGrows(p, PendingCompleted(p, m).coverage, g.fn, pc, false, f, q, kind);
        GrowsTwice(c, PendingCompleted(p, m).coverage, Settled(p, c, e, |frames|, g.fn, pc).coverage, f, q, kind, 0, 0);
      case Finishes(_) => FinishGrows(p, c, g.fn, pc, false, f, q, kind);
      case Failed => SameGrows(c, c, f, q, kind);
      case Exiting => SameGrows(c, c, f, q, kind);
    }
  }

  lemma EnterGrows(c: Coverage, g: nat, f: nat, pc: nat, kind: Kind)
    requires HasCell(c, f, pc)
    ensures Grows(c, Entered(c, g), f, pc, kind, 0)
  {
  }

  /** The way of the effect is the way of the operand. */
  lemma WayIsSeen(p: Image, m: Machine, a: Answer, ins: Instruction, kind: Kind)
    requires m.status.Yielded? && m.frames != []
    requires InstructionAt(p, Top(m.frames).fn, Top(m.frames).pc) == Some(ins)
    ensures var f := Top(m.frames);
            Way(p, Effect1(p, Below(m.frames), f.(pc := f.pc + 1), ins, a.outcome), ins, kind)
            <==> !kind.Tried? && Happens(p, m, Dispatch(a), f.fn, f.pc, kind)
  {
    hide Callee, CallEffect;
  }

  lemma DispatchGrows(p: Image, m: Machine, a: Answer, f: nat, pc: nat, kind: Kind)
    requires StackOk(p, m) && CoverageOk(p, m) && HasCell(m.coverage, f, pc)
    ensures Grows(m.coverage, Dispatched(p, m, a).coverage, f, pc, kind, Bit(Happens(p, m, Dispatch(a), f, pc, kind)))
  {
    hide Effect1, Settled, Shaped, Linked, Attempted, Executes, Grows, FrameMarks, Way, Balanced, BranchesOk, CellsOk;
    if m.status.Yielded? && InstructionAt(p, Top(m.frames).fn, Top(m.frames).pc).Some? {
      var g := Top(m.frames);
      var ins := InstructionAt(p, g.fn, g.pc).value;
      var h := g.(pc := g.pc + 1);
      var e := Effect1(p, Below(m.frames), h, ins, a.outcome);
      EffectShaped(p, Below(m.frames), h, ins, a.outcome);
      EffectDepth(p, Below(m.frames), h, ins, a.outcome);
      AttemptGrows(m.coverage, g.fn, g.pc, f, pc, kind);
      var t := Attempted(m.coverage, g.fn, g.pc);
      var c := if Executes(p, m).Some? && a.gap then t.(gap := true) else t;
      var tried := Bit(g.fn == f && g.pc == pc && kind.Tried?);
      assert Grows(m.coverage, c, f, pc, kind, tried) by { GapGrows(m.coverage, t, f, pc, kind, tried); }
      Has(m.coverage, c, f, pc, kind, tried);
      SettledGrows(p, c, m.frames, h, ins, e, g.pc, f, pc, kind);
      var went := Bit(g.fn == f && g.pc == pc && Way(p, e, ins, kind));
      GrowsTwice(m.coverage, c, Dispatched(p, m, a).coverage, f, pc, kind, tried, went);
      WayIsSeen(p, m, a, ins, kind);
      assert kind.Tried? ==> !Way(p, e, ins, kind) by { NoWay(p, e, ins, kind); }
    } else {
      SameGrows(m.coverage, Dispatched(p, m, a).coverage, f, pc, kind);
    }
  }

  lemma NoWay(p: Image, e: Effect, ins: Instruction, kind: Kind)
    ensures kind.Tried? ==> !Way(p, e, ins, kind)
  {
  }

  lemma Has(c: Coverage, r: Coverage, f: nat, pc: nat, kind: Kind, more: nat)
    requires Grows(c, r, f, pc, kind, more)
    ensures HasCell(r, f, pc)
  {
  }

  lemma GapGrows(c: Coverage, r: Coverage, f: nat, pc: nat, kind: Kind, more: nat)
    requires Grows(c, r, f, pc, kind, more)
    ensures Grows(c, r.(gap := true), f, pc, kind, more)
  {
  }

  lemma StepGrows(p: Image, m: Machine, e: Event, f: nat, pc: nat, kind: Kind)
    requires StackOk(p, m) && CoverageOk(p, m) && HasCell(m.coverage, f, pc)
    ensures Grows(m.coverage, Step(p, m, e).coverage, f, pc, kind, Bit(Happens(p, m, e, f, pc, kind)))
  {
    hide Dispatched, ValidRead, Grows, PendingCompleted, StackOk, Balanced, BranchesOk, CellsOk;
    SameGrows(m.coverage, m.coverage, f, pc, kind);
    match e {
      case Dispatch(a) => DispatchGrows(p, m, a, f, pc, kind);
      case CompletePrint(ok) => ResumeGrows(p, m, Void, f, pc, kind);
      case CompleteRead(result) => ResumeGrows(p, m, if result.Some? then result.value else Void, f, pc, kind);
    }
  }

  lemma ResumeGrows(p: Image, m: Machine, v: Value, f: nat, pc: nat, kind: Kind)
    requires CoverageOk(p, m) && HasCell(m.coverage, f, pc)
    ensures m.frames != [] ==> Grows(m.coverage, Resumed(p, m, v).coverage, f, pc, kind, 0)
  {
    hide PendingCompleted, Grows, Balanced, BranchesOk, CellsOk;
    if m.frames != [] {
      assert AtCall(p, m.frames[|m.frames| - 1]);
      PendingGrows(p, Machine(Below(m.frames) + [Push(Top(m.frames), v)], Yielded, m.coverage), f, pc, kind);
    }
  }

  lemma {:induction false} RunGrows(p: Image, m: Machine, events: seq<Event>, f: nat, pc: nat, kind: Kind)
    requires StackOk(p, m) && CoverageOk(p, m) && HasCell(m.coverage, f, pc)
    ensures Grows(m.coverage, Run(p, m, events).coverage, f, pc, kind, Times(p, m, events, f, pc, kind))
    decreases |events|
  {
    hide StackOk, CoverageOk, Step, Happens, Grows;
    if events == [] {
      SameGrows(m.coverage, m.coverage, f, pc, kind);
    } else {
      var n := |events| - 1;
      var r := Run(p, m, events[..n]);
      RunGrows(p, m, events[..n], f, pc, kind);
      RunKeepsStack(p, m, events[..n]);
      RunCovered(p, m, events[..n]);
      Has(m.coverage, r.coverage, f, pc, kind, Times(p, m, events[..n], f, pc, kind));
      StepGrows(p, r, events[n], f, pc, kind);
      GrowsTwice(m.coverage, r.coverage, Run(p, m, events).coverage, f, pc, kind,
                 Times(p, m, events[..n], f, pc, kind), Bit(Happens(p, r, events[n], f, pc, kind)));
    }
  }

  /** An instruction was attempted as often as the run dispatched it; a branch fell through as
      often as it popped true or got an item, and branched as often as it popped false or found its
      iterator at the end; all of it up to the ceiling of the counters. */
  lemma BranchesCounted(p: Image, ceiling: nat, start: nat, arguments: seq<Value>, events: seq<Event>, f: nat, pc: nat)
    requires start < |p.fs| && |arguments| == |p.fs[start].params| && InstructionAt(p, f, pc).Some?
    ensures var m := Created(p, ceiling, start, arguments);
            var c := Run(p, m, events).coverage;
            && HasCell(c, f, pc)
            && c.cells[f][pc].attempted == Capped(ceiling, Times(p, m, events, f, pc, Tried))
            && c.cells[f][pc].fallthrough == Capped(ceiling, Times(p, m, events, f, pc, WentOn))
            && c.cells[f][pc].branched == Capped(ceiling, Times(p, m, events, f, pc, Jumped))
  {
    var m := Created(p, ceiling, start, arguments);
    CreatedCovered(p, ceiling, start, arguments);
    hide Times, Run, StackOk, CoverageOk;
    RunGrows(p, m, events, f, pc, Tried);
    RunGrows(p, m, events, f, pc, WentOn);
    RunGrows(p, m, events, f, pc, Jumped);
  }

  // ----- Overflow -----

  predicate FullCell(cell: Cell, ceiling: nat) {
    cell.attempted == ceiling || cell.completed == ceiling || cell.fallthrough == ceiling || cell.branched == ceiling
  }

  predicate FullAt(c: Coverage, f: nat, pc: nat) {
    HasCell(c, f, pc) && FullCell(c.cells[f][pc], c.ceiling)
  }

  predicate FullEntry(c: Coverage, f: nat) {
    f < |c.entries| && c.entries[f] == c.ceiling
  }

  /** Overflow is reported only when some counter stands at its ceiling. */
  ghost predicate Honest(c: Coverage) {
    c.overflow ==> (exists f: nat, pc: nat :: FullAt(c, f, pc)) || (exists f: nat :: FullEntry(c, f))
  }

  /** What is full stays full, and what makes overflow is full. */
  lemma HonestCell(c: Coverage, f: nat, pc: nat, cell: Cell, full: bool)
    requires Honest(c) && HasCell(c, f, pc)
    requires FullCell(c.cells[f][pc], c.ceiling) ==> FullCell(cell, c.ceiling)
    requires full ==> FullCell(cell, c.ceiling)
    ensures Honest(WithCell(c, f, pc, cell, full))
  {
    var r := WithCell(c, f, pc, cell, full);
    if full {
      assert FullAt(r, f, pc);
    } else if g: nat, q: nat :| FullAt(c, g, q) {
      assert FullAt(r, g, q);
    } else if g: nat :| FullEntry(c, g) {
      assert FullEntry(r, g);
    }
  }

  lemma HonestGap(c: Coverage)
    requires Honest(c)
    ensures Honest(c.(gap := true))
  {
    if g: nat, q: nat :| FullAt(c, g, q) {
      assert FullAt(c.(gap := true), g, q);
    } else if g: nat :| FullEntry(c, g) {
      assert FullEntry(c.(gap := true), g);
    }
  }

  lemma AttemptHonest(c: Coverage, f: nat, pc: nat)
    requires Honest(c)
    ensures Honest(Attempted(c, f, pc))
  {
    if HasCell(c, f, pc) {
      var cell := c.cells[f][pc];
      HonestCell(c, f, pc, cell.(attempted := Bumped(c, cell.attempted)), cell.attempted == c.ceiling);
    } else {
      HonestGap(c);
    }
  }

  lemma FinishHonest(p: Image, c: Coverage, f: nat, pc: nat, branched: bool)
    requires Honest(c)
    ensures Honest(Finished(p, c, f, pc, branched))
  {
    hide Honest, BranchAt;
    if HasCell(c, f, pc) {
      var cell := c.cells[f][pc];
      var done := cell.(completed := Bumped(c, cell.completed));
      if !BranchAt(p, f, pc) {
        HonestCell(c, f, pc, done, cell.completed == c.ceiling);
      } else if branched {
        HonestCell(c, f, pc, done.(branched := Bumped(c, cell.branched)),
                   cell.completed == c.ceiling || cell.branched == c.ceiling);
      } else {
        HonestCell(c, f, pc, done.(fallthrough := Bumped(c, cell.fallthrough)),
                   cell.completed == c.ceiling || cell.fallthrough == c.ceiling);
      }
    } else {
      HonestGap(c);
    }
  }

  lemma EnterHonest(c: Coverage, f: nat)
    requires Honest(c)
    ensures Honest(Entered(c, f))
  {
    var r := Entered(c, f);
    if f < |c.entries| && c.entries[f] == c.ceiling {
      assert FullEntry(r, f);
    } else if g: nat, q: nat :| FullAt(c, g, q) {
      assert FullAt(r, g, q);
    } else if g: nat :| FullEntry(c, g) {
      assert FullEntry(r, g);
    }
  }

  lemma SettledHonest(p: Image, c: Coverage, e: Effect, depth: nat, f: nat, pc: nat)
    requires Honest(c) && depth > 0 && (e.Pushed? || e.Suspended? ==> depth <= |e.frames|)
    ensures Honest(Settled(p, c, e, depth, f, pc).coverage)
  {
    hide Honest, Finished, Entered;
    match e {
      case Next(_, branched) => FinishHonest(p, c, f, pc, branched);
      case Pushed(next) => EnterHonest(c, Top(next).fn);
      case Popped(next) =>
        var m := PendingCompleted(p, Machine(next, Yielded, c));
        PendingHonest(p, Machine(next, Yielded, c));
        FinishHonest(p, m.coverage, f, pc, false);
      case Finishes(_) => FinishHonest(p, c, f, pc, false);
      case _ =>
    }
  }

  lemma PendingHonest(p: Image, m: Machine)
    requires Honest(m.coverage)
    ensures Honest(PendingCompleted(p, m).coverage)
  {
    hide Honest, Finished;
    if m.frames != [] {
      FinishHonest(p, m.coverage, Top(m.frames).fn, Top(m.frames).pendingPc, false);
    }
  }

  lemma StepHonest(p: Image, m: Machine, e: Event)
    requires Honest(m.coverage)
    ensures Honest(Step(p, m, e).coverage)
  {
    hide Honest, Effect1, Settled, Executes, Attempted, PendingCompleted, ValidRead;
    if e.Dispatch? && m.status.Yielded? && m.frames != [] {
      var f := Top(m.frames);
      var ins := InstructionAt(p, f.fn, f.pc);
      if ins.Some? {
        var g := f.(pc := f.pc + 1);
        EffectDepth(p, Below(m.frames), g, ins.value, e.answer.outcome);
        AttemptHonest(m.coverage, f.fn, f.pc);
        HonestGap(Attempted(m.coverage, f.fn, f.pc));
        var c := if Executes(p, m).Some? && e.answer.gap then Attempted(m.coverage, f.fn, f.pc).(gap := true)
                 else Attempted(m.coverage, f.fn, f.pc);
        SettledHonest(p, c, Effect1(p, Below(m.frames), g, ins.value, e.answer.outcome), |m.frames|, f.fn, f.pc);
      }
    } else if m.frames != [] {
      var v := if e.CompleteRead? && e.result.Some? then e.result.value else Void;
      PendingHonest(p, Machine(Below(m.frames) + [Push(Top(m.frames), v)], Yielded, m.coverage));
    }
  }

  /** In every run overflow is reported only once some counter has reached its ceiling, so up to
      then all statements about runs without overflow apply. */
  lemma {:induction false} OverflowHonest(p: Image, ceiling: nat, start: nat, arguments: seq<Value>, events: seq<Event>)
    requires start < |p.fs| && |arguments| == |p.fs[start].params|
    ensures Honest(Run(p, Created(p, ceiling, start, arguments), events).coverage)
    decreases |events|
  {
    if events == [] {
      EnterHonest(FreshCoverage(p, ceiling), start);
    } else {
      hide Honest, Created, Step;
      var n := |events| - 1;
      OverflowHonest(p, ceiling, start, arguments, events[..n]);
      StepHonest(p, Run(p, Created(p, ceiling, start, arguments), events[..n]), events[n]);
    }
  }

  // ----- Gaps -----

  /** The event runs a builtin whose work the counters do not see. */
  ghost predicate Unseen(p: Image, m: Machine, e: Event) {
    e.Dispatch? && e.answer.gap && Executes(p, m).Some?
  }

  lemma PendingGap(p: Image, m: Machine)
    requires CellsOk(p, m.coverage) && (m.frames != [] ==> AtCall(p, Top(m.frames)))
    ensures var r := PendingCompleted(p, m).coverage; r.gap == m.coverage.gap && CellsOk(p, r)
  {
  }

  lemma SettledGap(p: Image, c: Coverage, frames: seq<Frame>, g: Frame, ins: Instruction, e: Effect, pc: nat)
    requires frames != [] && g.fn < |p.fs| && CellsOk(p, c) && Shaped(p, Below(frames), g, ins, e)
    requires InstructionAt(p, g.fn, pc) == Some(ins) && FrameMarks(p, frames, false)
    requires e.Pushed? || e.Suspended? ==> |frames| <= |e.frames|
    ensures Settled(p, c, e, |frames|, g.fn, pc).coverage.gap == c.gap
  {
    hide Link, PendingCompleted, BranchAt;
    if e.Popped? {
      assert AtCall(p, frames[|frames| - 2]);
      PendingGap(p, Machine(e.frames, Yielded, c));
    }
  }

  lemma DispatchGap(p: Image, m: Machine, a: Answer)
    requires StackOk(p, m) && CoverageOk(p, m)
    ensures Dispatched(p, m, a).coverage.gap == (m.coverage.gap || Unseen(p, m, Dispatch(a)))
  {
    hide Effect1, Settled, Shaped, Linked, Executes, FrameMarks, Balanced, BranchesOk;
    if m.status.Yielded? && InstructionAt(p, Top(m.frames).fn, Top(m.frames).pc).Some? {
      var g := Top(m.frames);
      var ins := InstructionAt(p, g.fn, g.pc).value;
      var h := g.(pc := g.pc + 1);
      EffectShaped(p, Below(m.frames), h, ins, a.outcome);
      EffectDepth(p, Below(m.frames), h, ins, a.outcome);
      var t := Attempted(m.coverage, g.fn, g.pc);
      var c := if Executes(p, m).Some? && a.gap then t.(gap := true) else t;
      SettledGap(p, c, m.frames, h, ins, Effect1(p, Below(m.frames), h, ins, a.outcome), g.pc);
    } else {
      NothingRuns(p, m);
    }
  }

  lemma NothingRuns(p: Image, m: Machine)
    requires m.status.Yielded? ==> m.frames != [] && InstructionAt(p, Top(m.frames).fn, Top(m.frames).pc).None?
    ensures Executes(p, m).None?
  {
  }

  lemma StepGap(p: Image, m: Machine, e: Event)
    requires StackOk(p, m) && CoverageOk(p, m)
    ensures Step(p, m, e).coverage.gap == (m.coverage.gap || Unseen(p, m, e))
  {
    hide Dispatched, ValidRead, PendingCompleted, StackOk, Balanced, BranchesOk, CellsOk, Executes;
    match e {
      case Dispatch(a) => DispatchGap(p, m, a);
      case CompletePrint(_) => ResumeGap(p, m, Void);
      case CompleteRead(result) => ResumeGap(p, m, if result.Some? then result.value else Void);
    }
  }

  lemma ResumeGap(p: Image, m: Machine, v: Value)
    requires CoverageOk(p, m)
    ensures m.frames != [] ==> Resumed(p, m, v).coverage.gap == m.coverage.gap
  {
    hide PendingCompleted, Balanced, BranchesOk, CellsOk;
    if m.frames != [] {
      assert AtCall(p, m.frames[|m.frames| - 1]);
      PendingGap(p, Machine(Below(m.frames) + [Push(Top(m.frames), v)], Yielded, m.coverage));
    }
  }

  /** Step `k` of the run is such an event. */
  ghost predicate UnseenAt(p: Image, m: Machine, events: seq<Event>, k: nat)
    requires k < |events|
  {
    Unseen(p, Run(p, m, events[..k]), events[k])
  }

  lemma UnseenSooner(p: Image, m: Machine, events: seq<Event>, n: nat, k: nat)
    requires k < n <= |events|
    ensures UnseenAt(p, m, events[..n], k) == UnseenAt(p, m, events, k)
  {
    assert events[..n][..k] == events[..k];
  }

  lemma {:induction false} RunGap(p: Image, m: Machine, events: seq<Event>)
    requires StackOk(p, m) && CoverageOk(p, m)
    ensures Run(p, m, events).coverage.gap <==>
              m.coverage.gap || exists k :: 0 <= k < |events| && UnseenAt(p, m, events, k)
    decreases |events|
  {
    hide StackOk, CoverageOk, Step, Unseen, UnseenAt;
    if events != [] {
      var n := |events| - 1;
      RunGap(p, m, events[..n]);
      RunKeepsStack(p, m, events[..n]);
      RunCovered(p, m, events[..n]);
      StepGap(p, Run(p, m, events[..n]), events[n]);
      assert UnseenAt(p, m, events, n) == Unseen(p, Run(p, m, events[..n]), events[n]) by { UnseenLast(p, m, events); }
      forall k | 0 <= k < n ensures UnseenAt(p, m, events[..n], k) == UnseenAt(p, m, events, k) {
        UnseenSooner(p, m, events, n, k);
      }
    }
  }

  lemma UnseenLast(p: Image, m: Machine, events: seq<Event>)
    requires events != []
    ensures var n := |events| - 1; UnseenAt(p, m, events, n) == Unseen(p, Run(p, m, events[..n]), events[n])
  {
  }

  /** A run reports a gap exactly when some step of it ran such a builtin. */
  lemma GapsReported(p: Image, ceiling: nat, start: nat, arguments: seq<Value>, events: seq<Event>)
    requires start < |p.fs| && |arguments| == |p.fs[start].params|
    ensures var m := Created(p, ceiling, start, arguments);
            Run(p, m, events).coverage.gap <==> exists k :: 0 <= k < |events| && UnseenAt(p, m, events, k)
  {
    CreatedCovered(p, ceiling, start, arguments);
    hide StackOk, CoverageOk, Run, UnseenAt;
    RunGap(p, Created(p, ceiling, start, arguments), events);
  }
}
