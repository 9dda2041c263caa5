/** The bytecode interpreter: frames, calls, waits and returns, with coverage counters. What a
    builtin answers, what an iterator yields and what a host completes with are inputs. */
module Interpreter {
  import opened Utf8
  import opened Bytecode
  import opened Effects

  datatype Image = Image(table: Table, fs: seq<Function>)

  datatype Frame = Frame(
    fn: nat, pc: nat, stack: seq<Value>, locals: map<Name, Value>, pending: bool, pendingPc: nat)

  datatype Wait = ForPrint | ForRead

  datatype Status = Yielded | Waiting(wait: Wait) | Completed(result: Value) | Trapped | Exited

  datatype Cell = Cell(attempted: nat, completed: nat, fallthrough: nat, branched: nat)

  datatype Coverage = Coverage(ceiling: nat, gap: bool, overflow: bool, entries: seq<nat>, cells: seq<seq<Cell>>)

  datatype Machine = Machine(frames: seq<Frame>, status: Status, coverage: Coverage)

  /** What the world outside answers to one instruction. */
  datatype Outcome =
    | Returned(value: Value)
    | Ended
    | Fails
    | Waits(wait: Wait)
    | Exits
    | Invokes(handler: nat, arguments: seq<Value>)

  datatype Answer = Answer(gap: bool, outcome: Outcome)

  // ----- Coverage counters -----

  function Bumped(c: Coverage, v: nat): nat {
    if v == c.ceiling then v else v + 1
  }

  predicate HasCell(c: Coverage, f: nat, pc: nat) {
    f < |c.cells| && pc < |c.cells[f]|
  }

  function WithCell(c: Coverage, f: nat, pc: nat, cell: Cell, full: bool): Coverage
    requires HasCell(c, f, pc)
  {
    c.(cells := c.cells[f := c.cells[f][pc := cell]], overflow := c.overflow || full)
  }

  /** `vm_coverage_enter` */
  function Entered(c: Coverage, f: nat): Coverage {
    if f < |c.entries| then
      c.(entries := c.entries[f := Bumped(c, c.entries[f])], overflow := c.overflow || c.entries[f] == c.ceiling)
    else c
  }

  /** `vm_coverage_attempt` */
  function Attempted(c: Coverage, f: nat, pc: nat): Coverage {
    if HasCell(c, f, pc) then
      var cell := c.cells[f][pc];
      WithCell(c, f, pc, cell.(attempted := Bumped(c, cell.attempted)), cell.attempted == c.ceiling)
    else c.(gap := true)
  }

  predicate Branches(ins: Instruction) {
    ins.JumpFalse? || ins.IterNext?
  }

  function InstructionAt(p: Image, f: nat, pc: nat): Option<Instruction> {
    if f < |p.fs| && pc < |p.fs[f].ins| then Some(p.fs[f].ins[pc]) else None
  }

  predicate BranchAt(p: Image, f: nat, pc: nat) {
    InstructionAt(p, f, pc).Some? && Branches(InstructionAt(p, f, pc).value)
  }

  /** `vm_coverage_finish` */
  function Finished(p: Image, c: Coverage, f: nat, pc: nat, branched: bool): Coverage {
    if !HasCell(c, f, pc) then c.(gap := true)
    else
      var cell := c.cells[f][pc];
      var done := cell.(completed := Bumped(c, cell.completed));
      if !BranchAt(p, f, pc) then WithCell(c, f, pc, done, cell.completed == c.ceiling)
      else if branched then
        WithCell(c, f, pc, done.(branched := Bumped(c, cell.branched)),
                 cell.completed == c.ceiling || cell.branched == c.ceiling)
      else
        WithCell(c, f, pc, done.(fallthrough := Bumped(c, cell.fallthrough)),
                 cell.completed == c.ceiling || cell.fallthrough == c.ceiling)
  }

  function Top(frames: seq<Frame>): Frame
    requires frames != []
  {
    frames[|frames| - 1]
  }

  function Below(frames: seq<Frame>): seq<Frame>
    requires frames != []
  {
    frames[..|frames| - 1]
  }

  /** `coverage_complete_pending` */
  function PendingCompleted(p: Image, m: Machine): Machine {
    if m.frames == [] || !Top(m.frames).pending then m
    else
      m.(frames := Below(m.frames) + [Top(m.frames).(pending := false)],
         coverage := Finished(p, m.coverage, Top(m.frames).fn, Top(m.frames).pendingPc, false))
  }

  // ----- Instructions -----

  function Bound(params: seq<Name>, arguments: seq<Value>): map<Name, Value>
    requires |params| == |arguments|
  {
    if params == [] then map[]
    else Bound(params[..|params| - 1], arguments[..|params| - 1])[params[|params| - 1] := arguments[|params| - 1]]
  }

  function NewFrame(p: Image, f: nat, arguments: seq<Value>): Frame
    requires f < |p.fs| && |arguments| == |p.fs[f].params|
  {
    Frame(f, 0, [], Bound(p.fs[f].params, arguments), false, 0)
  }

  /** What an instruction does to the frames, before the counters are settled. */
  datatype Effect =
    | Next(frames: seq<Frame>, branched: bool)
    | Pushed(frames: seq<Frame>)
    | Suspended(frames: seq<Frame>, wait: Wait)
    | Popped(frames: seq<Frame>)
    | Finishes(result: Value)
    | Failed
    | Exiting

  function Push(f: Frame, v: Value): Frame {
    f.(stack := f.stack + [v])
  }

  /** The name up to its first zero byte. */
  function CString(text: seq<byte>): Name {
    if text == [] || text[0] == 0 then [] else [text[0]] + CString(text[1..])
  }

  /** The checks made before every call, direct or not. */
  predicate MayCall(p: Image, caller: Function, name: Name, arity: nat, awaited: bool) {
    && Known(p.table, p.fs, name) && arity == ArityOf(p.table, p.fs, name)
    && CallEdge(caller, TargetOf(p.table, p.fs, name), awaited)
  }

  /** The call that the next instruction makes, if it gets as far as making one. */
  function Callee(p: Image, f: Frame, ins: Instruction): Option<Name>
    requires f.fn < |p.fs|
  {
    if ins.Call? then
      if |f.stack| >= ins.arity && MayCall(p, p.fs[f.fn], ins.name, ins.arity, ins.awaited) then Some(ins.name)
      else None
    else if ins.CallValue? && |f.stack| > ins.arity && f.stack[|f.stack| - ins.arity - 1].Str? then
      var text := f.stack[|f.stack| - ins.arity - 1].text;
      if 0 !in text && MayCall(p, p.fs[f.fn], CString(text), ins.arity, ins.awaited) then Some(CString(text))
      else None
    else None
  }

  /** `execution_builtin`: any answer; only an asynchronous service invokes a handler, which must
      be an asynchronous function. */
  function BuiltinEffect(p: Image, below: seq<Frame>, f: Frame, b: Builtin, o: Outcome): Effect {
    match o
    case Returned(v) => Next(below + [Push(f, v)], false)
    case Waits(w) => Suspended(below + [f], w)
    case Exits => Exiting
    case Invokes(h, arguments) =>
      if b.async && h < |p.fs| && p.fs[h].isAsync && !p.fs[h].pure && |arguments| == |p.fs[h].params| then
        Pushed(below + [f, NewFrame(p, h, arguments)])
      else Failed
    case Ended => Failed
    case Fails => Failed
  }

  function CallEffect(p: Image, below: seq<Frame>, f: Frame, name: Name, arguments: seq<Value>, o: Outcome): Effect
    requires Known(p.table, p.fs, name) && |arguments| == ArityOf(p.table, p.fs, name)
  {
    if name in p.table then BuiltinEffect(p, below, f, p.table[name], o)
    else Pushed(below + [f, NewFrame(p, Named(p.fs, name), arguments)])
  }

  /** One instruction; `f` is the top frame with its counter already advanced. */
  function Effect1(p: Image, below: seq<Frame>, f: Frame, ins: Instruction, o: Outcome): Effect
    requires f.fn < |p.fs|
  {
    var n := |f.stack|;
    match ins
    case Const(v) => Next(below + [Push(f, v)], false)
    case Load(name) => if name in f.locals then Next(below + [Push(f, f.locals[name])], false) else Failed
    case Store(name) =>
      if n == 0 then Failed
      else Next(below + [f.(stack := f.stack[..n - 1], locals := f.locals[name := f.stack[n - 1]])], false)
    case Pop => if n == 0 then Failed else Next(below + [f.(stack := f.stack[..n - 1])], false)
    case Jump(target) => Next(below + [f.(pc := target)], false)
    case JumpFalse(target) =>
      if n == 0 || !f.stack[n - 1].Bool? then Failed
      else if f.stack[n - 1].boolean then Next(below + [f.(stack := f.stack[..n - 1])], false)
      else Next(below + [f.(stack := f.stack[..n - 1], pc := target)], true)
    case IterNext(name, item, target) =>
      if name !in f.locals || !f.locals[name].Iter? then Failed
      else if o.Returned? then Next(below + [f.(locals := f.locals[item := o.value])], false)
      else if o.Ended? then Next(below + [f.(pc := target)], true)
      else Failed
    case Call(_, arity, _) =>
      if Callee(p, f, ins).None? then Failed
      else CallEffect(p, below, f.(stack := f.stack[..n - arity]), Callee(p, f, ins).value, f.stack[n - arity..], o)
    case CallValue(arity, _) =>
      if Callee(p, f, ins).None? then Failed
      else CallEffect(p, below, f.(stack := f.stack[..n - arity - 1]), Callee(p, f, ins).value, f.stack[n - arity..], o)
    case Return =>
      if n == 0 || (p.fs[f.fn].isAsync && p.fs[f.fn].name == MAIN && !f.stack[n - 1].Unit?) then Failed
      else if below == [] then Finishes(f.stack[n - 1])
      else Popped(Below(below) + [Push(Top(below), f.stack[n - 1])])
  }

  /** The builtin that the next instruction executes, if it executes one. */
  function Executes(p: Image, m: Machine): Option<Builtin> {
    if !m.status.Yielded? || m.frames == [] || InstructionAt(p, Top(m.frames).fn, Top(m.frames).pc).None? then None
    else
      var f := Top(m.frames);
      var name := Callee(p, f, InstructionAt(p, f.fn, f.pc).value);
      if name.Some? && name.value in p.table then Some(p.table[name.value]) else None
  }

  // ----- Steps -----

  function Stopped(m: Machine, status: Status): Machine {
    m.(frames := [], status := status)
  }

  function SetPending(frames: seq<Frame>, depth: nat, pc: nat): seq<Frame>
    requires 0 < depth <= |frames|
  {
    frames[depth - 1 := frames[depth - 1].(pending := true, pendingPc := pc)]
  }

  /** Settles the counters of an instruction of function `f` at `pc`, run at that depth. */
  function Settled(p: Image, c: Coverage, e: Effect, depth: nat, f: nat, pc: nat): Machine
    requires depth > 0
    requires e.Pushed? || e.Suspended? ==> depth <= |e.frames|
  {
    match e
    case Next(frames, branched) => Machine(frames, Yielded, Finished(p, c, f, pc, branched))
    case Pushed(frames) => Machine(SetPending(frames, depth, pc), Yielded, Entered(c, Top(frames).fn))
    case Suspended(frames, wait) => Machine(SetPending(frames, depth, pc), Waiting(wait), c)
    case Popped(frames) =>
      var m := PendingCompleted(p, Machine(frames, Yielded, c));
      m.(coverage := Finished(p, m.coverage, f, pc, false))
    case Finishes(v) => Machine([], Completed(v), Finished(p, c, f, pc, false))
    case Failed => Machine([], Trapped, c)
    case Exiting => Machine([], Exited, c)
  }

  lemma EffectDepth(p: Image, below: seq<Frame>, f: Frame, ins: Instruction, o: Outcome)
    requires f.fn < |p.fs|
    ensures var e := Effect1(p, below, f, ins, o); e.Pushed? || e.Suspended? ==> |below| + 1 <= |e.frames|
  {
  }

  /** One pass of the dispatch loop. */
  function Dispatched(p: Image, m: Machine, a: Answer): Machine {
    if !m.status.Yielded? || m.frames == [] then m
    else
      var f := Top(m.frames);
      if InstructionAt(p, f.fn, f.pc).None? then Stopped(m, Trapped)
      else
        var ins := InstructionAt(p, f.fn, f.pc).value;
        var attempted := Attempted(m.coverage, f.fn, f.pc);
        var c := if Executes(p, m).Some? && a.gap then attempted.(gap := true) else attempted;
        EffectDepth(p, Below(m.frames), f.(pc := f.pc + 1), ins, a.outcome);
        Settled(p, c, Effect1(p, Below(m.frames), f.(pc := f.pc + 1), ins, a.outcome), |m.frames|, f.fn, f.pc)
  }

  predicate ValidRead(v: Value) {
    && v.Variant? && |v.fields| == 1
    && ((v.tag == [79, 107] && v.fields[0].Bytes?) || (v.tag == [69, 114, 114, 111, 114] && v.fields[0].Str?))
  }

  /** A completion arrives: its value is pushed and the suspended call is over. */
  function Resumed(p: Image, m: Machine, v: Value): Machine
    requires m.frames != []
  {
    PendingCompleted(p, Machine(Below(m.frames) + [Push(Top(m.frames), v)], Yielded, m.coverage))
  }

  /** `vm_execution_complete_print` */
  function PrintCompleted(p: Image, m: Machine, ok: bool): Machine {
    if m.status != Waiting(ForPrint) || m.frames == [] then m
    else if ok then Resumed(p, m, Void) else Stopped(m, Trapped)
  }

  /** `vm_execution_complete_read` */
  function ReadCompleted(p: Image, m: Machine, result: Option<Value>): Machine {
    if m.status != Waiting(ForRead) || m.frames == [] then m
    else if result.Some? && ValidRead(result.value) then Resumed(p, m, result.value)
    else Stopped(m, Trapped)
  }

  datatype Event = Dispatch(answer: Answer) | CompletePrint(ok: bool) | CompleteRead(result: Option<Value>)

  function Step(p: Image, m: Machine, e: Event): Machine {
    match e
    case Dispatch(a) => Dispatched(p, m, a)
    case CompletePrint(ok) => PrintCompleted(p, m, ok)
    case CompleteRead(result) => ReadCompleted(p, m, result)
  }

  function FreshCoverage(p: Image, ceiling: nat): Coverage {
    Coverage(ceiling, false, false, seq(|p.fs|, i => 0),
             seq(|p.fs|, i requires 0 <= i < |p.fs| => seq(|p.fs[i].ins|, j => Cell(0, 0, 0, 0))))
  }

  /** `vm_execution_create` */
  function Created(p: Image, ceiling: nat, f: nat, arguments: seq<Value>): Machine
    requires f < |p.fs| && |arguments| == |p.fs[f].params|
  {
    Machine([NewFrame(p, f, arguments)], Yielded, Entered(FreshCoverage(p, ceiling), f))
  }

  function Run(p: Image, m: Machine, events: seq<Event>): Machine {
    if events == [] then m else Step(p, Run(p, m, events[..|events| - 1]), events[|events| - 1])
  }
}
