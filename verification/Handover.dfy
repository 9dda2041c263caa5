/** Detached filesystem reads and console writes: one owner and one worker thread share a record
    per operation, and all operations share an admission counter. Each mutex section,
    compare-and-swap, release of a record and counter update is one step; the steps of any number
    of operations interleave. */
module Handover {

  const ROOT_READ_WORKERS := 32
  const CONSOLE_WORKERS := 4

  datatype Option<T> = None | Some(value: T)

  /** What a result value is does not matter to the protocol. */
  type Result = int

  /** Where the owner is: inside the start call, between calls, or inside the destroy call. */
  datatype Owner =
    | Loading
    | Trying(count: int)
    | Admitted
    | Prepared
    | Discarding
    | Holding
    | Leaving(sawDone: bool)
    | OwnerReturning
    | OwnerGone

  datatype Worker =
    | NoWorker
    | Running
    | Finished(outcome: Result)
    | Published(sawAbandoned: bool)
    | WorkerReturning
    | WorkerGone

  /** One operation: its shared record, its two sides, what has been done to its resources, and
      the value made for it: by the worker, or by the owner when it refuses. */
  datatype Op = Op(
    owner: Owner, worker: Worker,
    done: bool, abandoned: bool, admitted: bool, result: Option<Result>, open: bool,
    openings: nat, closings: nat, freed: nat, returned: nat, made: Option<Result>)

  datatype World = World(limit: nat, console: bool, active: int, ops: seq<Op>)

  datatype Preparation = OutOfMemory | NoDescriptor(why: Result) | BadDescriptor(why: Result) | Ready
  datatype Launching = Created | NoAttributes | NotCreated(why: Result)

  datatype Move =
    | Load
    | Swap(spurious: bool)
    | Decide(why: Result)
    | Prepare(preparation: Preparation)
    | Launch(launching: Launching)
    | Discard
    | Work(value: Result)
    | Publish
    | WorkerLeave
    | WorkerReturn
    | Poll
    | Destroy
    | OwnerLeave
    | OwnerReturn

  /** A start call that got as far as a record, or a move of one operation. */
  datatype Event = Start(inRange: bool, why: Result) | At(index: nat, move: Move)

  function Reads(): World {
    World(ROOT_READ_WORKERS, false, 0, [])
  }

  function Writes(): World {
    World(CONSOLE_WORKERS, true, 0, [])
  }

  // ----- Steps -----

  predicate Enabled(w: World, op: Op, m: Move) {
    match m
    case Load => op.owner.Loading?
    case Swap(_) => op.owner.Trying? && op.owner.count < w.limit
    case Decide(_) => op.owner.Trying? && op.owner.count >= w.limit
    case Prepare(p) => op.owner.Admitted? && (p.NoDescriptor? || p.BadDescriptor? ==> w.console)
    case Launch(_) => op.owner.Prepared?
    case Discard => op.owner.Discarding?
    case Work(_) => op.worker.Running?
    case Publish => op.worker.Finished?
    case WorkerLeave => op.worker.Published?
    case WorkerReturn => op.worker.WorkerReturning?
    case Poll => op.owner.Holding?
    case Destroy => op.owner.Holding?
    case OwnerLeave => op.owner.Leaving?
    case OwnerReturn => op.owner.OwnerReturning?
  }

  /** The moves that read or write the shared record. */
  predicate Touches(op: Op, m: Move) {
    match m
    case WorkerLeave => op.worker.Published? && op.worker.sawAbandoned
    case OwnerLeave => op.owner.Leaving? && op.owner.sawDone
    case WorkerReturn => false
    case OwnerReturn => false
    case _ => true
  }

  function NewOp(inRange: bool, why: Result): Op {
    Op(if inRange then Loading else Holding, NoWorker, !inRange, false, false,
       if inRange then None else Some(why), false, 0, 0, 0, 0, if inRange then None else Some(why))
  }

  /** The record completed by the owner itself, without a worker. */
  function Refused(op: Op, why: Result): Op {
    op.(owner := Holding, done := true, result := Some(why), made := Some(why))
  }

  function Opened(op: Op): Op {
    op.(open := true, openings := op.openings + 1)
  }

  function Closed(op: Op): Op {
    if op.open then op.(open := false, closings := op.closings + 1) else op
  }

  /** `free_read` and `free_write` up to the release of the record. */
  function Freed(op: Op): Op {
    Closed(op).(freed := op.freed + 1)
  }

  function Move1(w: World, op: Op, m: Move): Op
    requires Enabled(w, op, m)
  {
    match m
    case Load => op.(owner := Trying(w.active))
    case Swap(spurious) =>
      if w.active == op.owner.count && !spurious then op.(owner := Admitted, admitted := true)
      else op.(owner := Trying(w.active))
    case Decide(why) =>
      if op.owner.count == w.limit then Refused(op, why) else op.(owner := Admitted, admitted := true)
    case Prepare(p) => (
      match p
      case OutOfMemory => op.(owner := Discarding)
      case NoDescriptor(why) => Refused(op, why)
      case BadDescriptor(why) => Refused(Opened(op), why)
      case Ready => (if w.console then Opened(op) else op).(owner := Prepared))
    case Launch(l) => (
      match l
      case Created => op.(owner := Holding, worker := Running)
      case NoAttributes => op.(owner := Discarding)
      case NotCreated(why) => Refused(op, why))
    case Discard => Freed(op).(owner := OwnerReturning)
    case Work(value) => Closed(op).(worker := Finished(value), made := Some(value))
    case Publish => op.(result := Some(op.worker.outcome), done := true, worker := Published(op.abandoned))
    case WorkerLeave =>
      if op.worker.sawAbandoned then Freed(op).(worker := WorkerReturning) else op.(worker := WorkerGone)
    case WorkerReturn => op.(worker := WorkerGone, returned := op.returned + if op.admitted then 1 else 0)
    case Poll => op
    case Destroy => op.(abandoned := true, owner := Leaving(op.done))
    case OwnerLeave =>
      if op.owner.sawDone then Freed(op).(owner := OwnerReturning) else op.(owner := OwnerGone)
    case OwnerReturn => op.(owner := OwnerGone, returned := op.returned + if op.admitted then 1 else 0)
  }

  function ActiveAfter(w: World, op: Op, m: Move): int
    requires Enabled(w, op, m)
  {
    match m
    case Swap(spurious) => if w.active == op.owner.count && !spurious then w.active + 1 else w.active
    case WorkerReturn => if op.admitted then w.active - 1 else w.active
    case OwnerReturn => if op.admitted then w.active - 1 else w.active
    case _ => w.active
  }

  function Step(w: World, e: Event): World {
    match e
    case Start(inRange, why) => w.(ops := w.ops + [NewOp(inRange, why)])
    case At(i, m) =>
      if i < |w.ops| && Enabled(w, w.ops[i], m) then
        w.(active := ActiveAfter(w, w.ops[i], m), ops := w.ops[i := Move1(w, w.ops[i], m)])
      else w
  }

  function Run(w: World, events: seq<Event>): World {
    if events == [] then w else Step(Run(w, events[..|events| - 1]), events[|events| - 1])
  }

  // ----- Invariant -----

  /** The admission slot of this operation is taken and not yet returned. */
  predicate Slot(op: Op) {
    op.admitted && op.returned == 0
  }

  function Slots(ops: seq<Op>): nat {
    if ops == [] then 0 else Slots(ops[..|ops| - 1]) + if Slot(ops[|ops| - 1]) then 1 else 0
  }

  predicate Private(o: Owner) {
    o.Loading? || o.Trying? || o.Admitted? || o.Prepared? || o.Discarding?
  }

  /** Neither side will touch the record again. */
  predicate Settled(op: Op) {
    && (op.owner.OwnerReturning? || op.owner.OwnerGone? || (op.owner.Leaving? && !op.owner.sawDone))
    && (op.worker.NoWorker? || op.worker.Published? || op.worker.WorkerReturning? || op.worker.WorkerGone?)
    && (op.worker.Published? ==> !op.worker.sawAbandoned)
  }

  /** Nothing is left to do. */
  predicate Complete(op: Op) {
    op.owner.OwnerGone? && (op.worker.NoWorker? || op.worker.WorkerGone?)
  }

  /** While the start call runs, the record belongs to the owner alone. */
  predicate PrivateOk(op: Op) {
    Private(op.owner) ==>
      && op.worker.NoWorker? && !op.done && !op.abandoned && op.result.None? && op.freed == 0 && op.returned == 0
      && (op.admitted <==> !(op.owner.Loading? || op.owner.Trying?))
  }

  /** `done` and the result appear together, and exactly when the worker is past its section. */
  predicate DoneOk(op: Op) {
    && (op.done <==> op.result.Some?)
    && (!Private(op.owner) && !op.worker.NoWorker? ==>
          (op.done <==> op.worker.Published? || op.worker.WorkerReturning? || op.worker.WorkerGone?))
    && (op.owner.Holding? || op.owner.Leaving? ==> op.worker.NoWorker? ==> op.done)
    && (op.worker.Running? || op.worker.Finished? ==> op.admitted)
  }

  /** What is published is what was made, and it is made once. */
  predicate MadeOk(op: Op) {
    && (op.done ==> op.made.Some? && op.result == op.made)
    && (op.worker.Finished? ==> op.made == Some(op.worker.outcome))
    && (Private(op.owner) || op.worker.Running? ==> op.made.None?)
  }

  /** The two lock sections agree on which side releases the record. */
  predicate SidesOk(op: Op) {
    && (op.owner.Holding? ==> !op.abandoned)
    && (op.owner.OwnerGone? && (op.worker.Running? || op.worker.Finished?) ==> op.abandoned)
    && (op.owner.Leaving? ==> op.abandoned && (op.owner.sawDone ==> op.done))
    && (op.owner.Leaving? && !op.owner.sawDone ==> !op.worker.NoWorker?)
    && (op.worker.Published? && op.worker.sawAbandoned ==> op.abandoned)
    && (op.owner.Leaving? && op.worker.Published? ==> op.worker.sawAbandoned == !op.owner.sawDone)
    && (op.owner.Holding? && op.worker.Published? ==> !op.worker.sawAbandoned)
    && (op.owner.Holding? ==> !op.worker.WorkerReturning?)
    && (op.owner.OwnerReturning? ==>
          !op.worker.Running? && !op.worker.Finished? && !op.worker.WorkerReturning?
          && (op.worker.Published? ==> !op.worker.sawAbandoned))
    && (op.owner.OwnerReturning? ==> op.freed == 1 && op.returned == 0)
    && (op.worker.WorkerReturning? ==> op.freed == 1 && op.returned == 0)
    && (op.owner.OwnerGone? && op.worker.NoWorker? ==> op.freed == 1)
  }

  /** Which side has released the record, told from where both are. */
  predicate FreedOk(op: Op) {
    && op.freed <= 1 && op.returned <= 1
    && (op.freed == 1 ==> Settled(op))
    && (op.worker.Running? || op.worker.Finished? ==> op.freed == 0)
    && (Complete(op) ==> op.freed == 1)
    && (op.owner.OwnerGone? && op.worker.Published? ==> (op.freed == 1 <==> !op.worker.sawAbandoned))
    && (op.worker.WorkerGone? && op.owner.Leaving? ==> (op.freed == 0 <==> op.owner.sawDone))
    && (op.returned == 1 ==> op.admitted && op.freed == 1 && !op.owner.OwnerReturning? && !op.worker.WorkerReturning?)
    && (op.freed == 1 && op.admitted && !op.owner.OwnerReturning? && !op.worker.WorkerReturning? ==> op.returned == 1)
  }

  predicate DescriptorOk(console: bool, op: Op) {
    && op.openings <= 1 && op.openings == op.closings + (if op.open then 1 else 0)
    && (op.open ==> console && op.freed == 0)
    && (op.owner.Admitted? || op.owner.Loading? || op.owner.Trying? ==> op.openings == 0)
    && (op.worker.Running? ==> op.open == console)
    && (op.owner.Prepared? ==> op.open == console)
    && (op.worker.Finished? || op.worker.Published? || op.worker.WorkerReturning? || op.worker.WorkerGone? ==> !op.open)
  }

  predicate OpOk(w: World, op: Op) {
    && PrivateOk(op) && DoneOk(op) && MadeOk(op) && SidesOk(op) && FreedOk(op) && DescriptorOk(w.console, op)
    && (op.owner.Trying? ==> op.owner.count <= w.limit)
  }

  predicate Inv(w: World) {
    && (forall i :: 0 <= i < |w.ops| ==> OpOk(w, w.ops[i]))
    && w.active == Slots(w.ops) <= w.limit
  }

  lemma {:induction false} SlotsUpdate(ops: seq<Op>, i: nat, op: Op)
    requires i < |ops|
    ensures Slots(ops[i := op]) == Slots(ops) - (if Slot(ops[i]) then 1 else 0) + (if Slot(op) then 1 else 0)
  {
    var n := |ops| - 1;
    if i < n {
      SlotsUpdate(ops[..n], i, op);
      assert ops[i := op][..n] == ops[..n][i := op];
    } else {
      assert ops[i := op][..n] == ops[..n];
    }
  }

  lemma MovesKeepPrivate(w: World, op: Op, m: Move)
    requires Enabled(w, op, m) && OpOk(w, op)
    ensures PrivateOk(Move1(w, op, m)) && DoneOk(Move1(w, op, m))
  {
  }

  lemma MovesKeepMade(w: World, op: Op, m: Move)
    requires Enabled(w, op, m) && OpOk(w, op)
    ensures MadeOk(Move1(w, op, m)) && (op.made.Some? ==> Move1(w, op, m).made == op.made)
  {
  }

  lemma MovesKeepSides(w: World, op: Op, m: Move)
    requires Enabled(w, op, m) && OpOk(w, op)
    ensures SidesOk(Move1(w, op, m))
  {
  }

  lemma MovesKeepFreed(w: World, op: Op, m: Move)
    requires Enabled(w, op, m) && OpOk(w, op)
    ensures FreedOk(Move1(w, op, m))
  {
  }

  lemma MovesKeepDescriptor(w: World, op: Op, m: Move)
    requires Enabled(w, op, m) && OpOk(w, op)
    ensures DescriptorOk(w.console, Move1(w, op, m))
  {
  }

  lemma MovesKeepRead(w: World, op: Op, m: Move)
    requires Enabled(w, op, m) && OpOk(w, op) && w.active <= w.limit
    ensures Move1(w, op, m).owner.Trying? ==> Move1(w, op, m).owner.count <= w.limit
  {
  }

  lemma MovesKeep(w: World, op: Op, m: Move)
    requires Enabled(w, op, m) && OpOk(w, op) && w.active <= w.limit
    ensures OpOk(w, Move1(w, op, m))
  {
    hide PrivateOk, DoneOk, MadeOk, SidesOk, FreedOk, DescriptorOk, Move1, Enabled;
    MovesKeepRead(w, op, m);
    MovesKeepPrivate(w, op, m);
    MovesKeepMade(w, op, m);
    MovesKeepSides(w, op, m);
    MovesKeepFreed(w, op, m);
    MovesKeepDescriptor(w, op, m);
  }

  /** The counter moves with the slot of the operation that moves. */
  lemma MovesCount(w: World, op: Op, m: Move)
    requires Enabled(w, op, m) && OpOk(w, op)
    ensures ActiveAfter(w, op, m) == w.active - (if Slot(op) then 1 else 0) + (if Slot(Move1(w, op, m)) then 1 else 0)
    ensures ActiveAfter(w, op, m) > w.active ==> w.active < w.limit
  {
  }

  lemma StepKeeps(w: World, e: Event)
    requires Inv(w)
    ensures Inv(Step(w, e))
  {
    hide OpOk, Move1, ActiveAfter, Enabled, Slot;
    match e {
      case Start(inRange, why) =>
        NewOpOk(w, inRange, why);
        assert Step(w, e).ops[..|w.ops|] == w.ops;
      case At(i, m) =>
        if i < |w.ops| && Enabled(w, w.ops[i], m) {
          MovesKeep(w, w.ops[i], m);
          MovesCount(w, w.ops[i], m);
          SlotsUpdate(w.ops, i, Move1(w, w.ops[i], m));
        }
    }
    SameOps(w, Step(w, e));
  }

  lemma NewOpOk(w: World, inRange: bool, why: Result)
    ensures OpOk(w, NewOp(inRange, why)) && !Slot(NewOp(inRange, why))
  {
  }

  /** What is right about an operation does not depend on the counter or on other operations. */
  lemma SameOps(w: World, w': World)
    requires w.limit == w'.limit && w.console == w'.console
    ensures forall op :: OpOk(w, op) ==> OpOk(w', op)
  {
  }

  /** Every interleaving of any number of operations. */
  lemma {:induction false} RunKeeps(w: World, events: seq<Event>)
    requires Inv(w)
    ensures Inv(Run(w, events))
  {
    if events != [] {
      RunKeeps(w, events[..|events| - 1]);
      StepKeeps(Run(w, events[..|events| - 1]), events[|events| - 1]);
    }
  }

  ghost predicate Reachable(w: World) {
    exists limit: nat, console: bool, events: seq<Event> :: Run(World(limit, console, 0, []), events) == w
  }

  lemma ReachableInv(w: World)
    requires Reachable(w)
    ensures Inv(w)
  {
    var limit: nat, console: bool, events: seq<Event> :| Run(World(limit, console, 0, []), events) == w;
    RunKeeps(World(limit, console, 0, []), events);
  }

  // ----- Results -----

  /** No record is released twice, or while a side may still touch it. */
  lemma FreedOnce(w: World, i: nat)
    requires Reachable(w) && i < |w.ops|
    ensures w.ops[i].freed <= 1
    ensures w.ops[i].freed == 1 ==> Settled(w.ops[i])
  {
    ReachableInv(w);
  }

  /** No enabled move touches a released record. */
  lemma NoUseAfterFree(w: World, i: nat, m: Move)
    requires Reachable(w) && i < |w.ops| && Enabled(w, w.ops[i], m) && Touches(w.ops[i], m)
    ensures w.ops[i].freed == 0
  {
    ReachableInv(w);
  }

  /** Operations are never dropped, and what was made for one stays. */
  lemma {:induction false} MadeStays(w: World, events: seq<Event>, i: nat)
    requires Inv(w) && i < |w.ops| && w.ops[i].made.Some?
    ensures i < |Run(w, events).ops| && Run(w, events).ops[i].made == w.ops[i].made
  {
    hide OpOk, Move1, Enabled, ActiveAfter;
    if events != [] {
      var n := |events| - 1;
      var v := Run(w, events[..n]);
      MadeStays(w, events[..n], i);
      RunKeeps(w, events[..n]);
      if events[n].At? && events[n].index == i && Enabled(v, v.ops[i], events[n].move) {
        MovesKeepMade(v, v.ops[i], events[n].move);
      }
    }
  }

  /** Whatever else happens, the result that appears in a record is the one its worker made. */
  lemma ResultIsMade(w: World, i: nat, value: Result, events: seq<Event>)
    requires Reachable(w) && i < |w.ops| && Enabled(w, w.ops[i], Work(value))
    ensures var v := Run(Step(w, At(i, Work(value))), events);
            i < |v.ops| && (v.ops[i].done ==> v.ops[i].result == Some(value))
  {
    ReachableInv(w);
    StepKeeps(w, At(i, Work(value)));
    var s := Step(w, At(i, Work(value)));
    assert s.ops[i].made == Some(value);
    hide Step, Enabled;
    MadeStays(s, events, i);
    RunKeeps(s, events);
    DoneMeansMade(Run(s, events), i);
  }

  lemma DoneMeansMade(w: World, i: nat)
    requires Inv(w) && i < |w.ops|
    ensures w.ops[i].done ==> w.ops[i].made.Some? && w.ops[i].result == w.ops[i].made
  {
  }

  /** The owner has seen `done` and not given the operation up. */
  predicate Seen(op: Op) {
    op.owner.Holding? && op.done
  }

  lemma SeenStep(w: World, i: nat, e: Event)
    requires Inv(w) && i < |w.ops| && Seen(w.ops[i]) && e != At(i, Destroy)
    ensures i < |Step(w, e).ops| && Seen(Step(w, e).ops[i]) && Step(w, e).ops[i].result == w.ops[i].result
    ensures w.ops[i].freed == 0
  {
    assert OpOk(w, w.ops[i]);
  }

  /** An owner that sees `done` sees the value made for the operation. However the others go on, and
      until the owner gives the operation up, that result stays and the record is not released. */
  lemma {:induction false} DoneIsFinal(w: World, i: nat, events: seq<Event>)
    requires Reachable(w) && i < |w.ops| && Seen(w.ops[i]) && At(i, Destroy) !in events
    ensures var v := Run(w, events);
            && i < |v.ops| && Seen(v.ops[i]) && v.ops[i].freed == 0
            && v.ops[i].result == w.ops[i].result == w.ops[i].made && w.ops[i].made.Some?
  {
    hide Reachable, Step, Seen, Inv;
    ReachableInv(w);
    SeenMade(w, i);
    if events != [] {
      var n := |events| - 1;
      var v := Run(w, events[..n]);
      DoneIsFinal(w, i, events[..n]);
      RunKeeps(w, events[..n]);
      SeenStep(v, i, events[n]);
    }
    RunKeeps(w, events);
    SeenStep(Run(w, events), i, At(i, Poll));
  }

  lemma SeenMade(w: World, i: nat)
    requires Inv(w) && i < |w.ops| && Seen(w.ops[i])
    ensures w.ops[i].made.Some? && w.ops[i].result == w.ops[i].made
  {
  }

  /** The counter is the number of slots taken and not returned, within the limit. */
  lemma AdmissionCounter(w: World)
    requires Reachable(w)
    ensures w.active == Slots(w.ops) && 0 <= w.active <= w.limit
  {
    ReachableInv(w);
  }

  /** At most 32 reads and at most 4 console writes hold a slot at any moment of any run. */
  lemma RealLimits(events: seq<Event>)
    ensures 0 <= Run(Reads(), events).active <= 32 && Run(Reads(), events).active == Slots(Run(Reads(), events).ops)
    ensures 0 <= Run(Writes(), events).active <= 4 && Run(Writes(), events).active == Slots(Run(Writes(), events).ops)
  {
    RunKeeps(Reads(), events);
    RunKeeps(Writes(), events);
    SameLimit(Reads(), events);
    SameLimit(Writes(), events);
  }

  lemma {:induction false} SameLimit(w: World, events: seq<Event>)
    ensures Run(w, events).limit == w.limit && Run(w, events).console == w.console
  {
    hide Move1, Enabled, ActiveAfter;
    if events != [] {
      SameLimit(w, events[..|events| - 1]);
    }
  }

  /** When both sides are gone, everything the operation held has been given back once. */
  lemma NothingLeaks(w: World, i: nat)
    requires Reachable(w) && i < |w.ops| && Complete(w.ops[i])
    ensures w.ops[i].freed == 1 && w.ops[i].returned == (if w.ops[i].admitted then 1 else 0)
    ensures !w.ops[i].open && w.ops[i].openings == w.ops[i].closings <= 1
  {
    ReachableInv(w);
  }

  lemma {:induction false} NoSlots(ops: seq<Op>)
    requires forall i :: 0 <= i < |ops| ==> !Slot(ops[i])
    ensures Slots(ops) == 0
  {
    if ops != [] {
      NoSlots(ops[..|ops| - 1]);
    }
  }

  /** With every operation complete, all admission slots are back. */
  lemma AllReturned(w: World)
    requires Reachable(w) && forall i :: 0 <= i < |w.ops| ==> Complete(w.ops[i])
    ensures w.active == 0
  {
    ReachableInv(w);
    forall i | 0 <= i < |w.ops|
      ensures !Slot(w.ops[i])
    {
      NothingLeaks(w, i);
    }
    NoSlots(w.ops);
  }

  /** The moves an operation still has before it, at most. */
  function Rank(op: Op): nat {
    (match op.owner
     case Loading => 12
     case Trying(_) => 11
     case Admitted => 10
     case Prepared => 9
     case Discarding => 2
     case Holding => 3
     case Leaving(_) => 2
     case OwnerReturning => 1
     case OwnerGone => 0)
    +
    (match op.worker
     case NoWorker => 0
     case Running => 5
     case Finished(_) => 4
     case Published(_) => 3
     case WorkerReturning => 1
     case WorkerGone => 0)
  }

  /** Waiting: a look at `done`, or a compare-and-swap that lost. */
  predicate Idle(w: World, op: Op, m: Move) {
    m.Poll? || (m.Swap? && Enabled(w, op, m) && (w.active != op.owner.count || m.spurious))
  }

  lemma RankFalls(w: World, op: Op, m: Move)
    requires Enabled(w, op, m) && OpOk(w, op) && !Idle(w, op, m)
    ensures Rank(Move1(w, op, m)) < Rank(op)
  {
  }

  /** No operation gets stuck: until it is complete some move is enabled that is not mere looking,
      and every enabled move but waiting brings it closer to completion. */
  lemma Progress(w: World, i: nat) returns (m: Move)
    requires Reachable(w) && i < |w.ops| && !Complete(w.ops[i])
    ensures Enabled(w, w.ops[i], m) && !m.Poll?
    ensures forall n :: Enabled(w, w.ops[i], n) && !Idle(w, w.ops[i], n) ==> Rank(Move1(w, w.ops[i], n)) < Rank(w.ops[i])
  {
    var op := w.ops[i];
    m := NextMove(w, op);
    ReachableInv(w);
    hide Move1, OpOk, Enabled, Rank;
    forall n | Enabled(w, op, n) && !Idle(w, op, n)
      ensures Rank(Move1(w, op, n)) < Rank(op)
    {
      RankFalls(w, op, n);
    }
  }

  lemma NextMove(w: World, op: Op) returns (m: Move)
    requires !Complete(op)
    ensures Enabled(w, op, m) && !m.Poll?
  {
    match op.owner {
      case Loading => m := Load;
      case Trying(count) => m := if count < w.limit then Swap(false) else Decide(0);
      case Admitted => m := Prepare(Ready);
      case Prepared => m := Launch(Created);
      case Discarding => m := Discard;
      case Holding => m := Destroy;
      case Leaving(_) => m := OwnerLeave;
      case OwnerReturning => m := OwnerReturn;
      case OwnerGone =>
        m := match op.worker {
          case Running => Work(0)
          case Finished(_) => Publish
          case Published(_) => WorkerLeave
          case _ => WorkerReturn
        };
    }
  }

  /** Events that are not moves of operation `i`. */
  predicate Elsewhere(events: seq<Event>, i: nat) {
    forall k :: 0 <= k < |events| ==> !(events[k].At? && events[k].index == i)
  }

  lemma {:induction false} Untouched(w: World, events: seq<Event>, i: nat)
    requires i < |w.ops| && Elsewhere(events, i)
    ensures i < |Run(w, events).ops| && Run(w, events).ops[i] == w.ops[i]
  {
    hide Move1, Enabled, ActiveAfter;
    if events != [] {
      Untouched(w, events[..|events| - 1], i);
    }
  }

  /** If the counter is different after some events, one of them changed it. */
  lemma {:induction false} CounterChanged(w: World, events: seq<Event>) returns (k: nat)
    requires Run(w, events).active != w.active
    ensures k < |events| && Step(Run(w, events[..k]), events[k]).active != Run(w, events[..k]).active
  {
    hide Step;
    var n := |events| - 1;
    if Run(w, events[..n]).active != w.active {
      k := CounterChanged(w, events[..n]);
      assert events[..n][..k] == events[..k];
    } else {
      k := n;
    }
  }

  /** A compare-and-swap that loses without a spurious failure loses to somebody: since its count was
      read, another operation made a move that changed the counter, and that move brought the other
      operation closer to completion. */
  lemma LostToProgress(w: World, i: nat, events: seq<Event>) returns (k: nat, j: nat)
    requires Reachable(w) && i < |w.ops| && w.ops[i].owner == Trying(w.active) && Elsewhere(events, i)
    requires var v := Run(w, events); i < |v.ops| && Idle(v, v.ops[i], Swap(false))
    ensures k < |events| && events[k].At? && events[k].index == j != i
    ensures var v := Run(w, events[..k]);
            && j < |v.ops| && Enabled(v, v.ops[j], events[k].move)
            && Step(v, events[k]).active != v.active
            && Rank(Step(v, events[k]).ops[j]) < Rank(v.ops[j])
  {
    Untouched(w, events, i);
    k := CounterChanged(w, events);
    var v, e := Run(w, events[..k]), events[k];
    j := e.index;
    assert !(e.At? && e.index == i);
    ReachableInv(w);
    RunKeeps(w, events[..k]);
    assert OpOk(v, v.ops[j]);
    RankFalls(v, v.ops[j], e.move);
  }

  /** Step `k` of the run is a read of the counter by operation `i`, which finds `count`. */
  ghost predicate ReadsAt(w: World, events: seq<Event>, i: nat, k: nat, count: int)
    requires k < |events|
  {
    && events[k].At? && events[k].index == i && (events[k].move.Load? || events[k].move.Swap?)
    && Run(w, events[..k]).active == count
  }

  lemma TryingMove(w: World, op: Op, m: Move)
    requires Enabled(w, op, m) && Move1(w, op, m).owner.Trying?
    ensures Move1(w, op, m).owner == op.owner || ((m.Load? || m.Swap?) && Move1(w, op, m).owner.count == w.active)
  {
  }

  /** A step after which an owner holds a count has read it, or has left it alone. */
  lemma TryingStep(w: World, e: Event, i: nat)
    requires i < |Step(w, e).ops| && Step(w, e).ops[i].owner.Trying?
    ensures || (e.At? && e.index == i && (e.move.Load? || e.move.Swap?) && Step(w, e).ops[i].owner.count == w.active)
            || (i < |w.ops| && w.ops[i].owner == Step(w, e).ops[i].owner)
  {
    hide Enabled, Move1, ActiveAfter;
    if e.At? && e.index == i && Enabled(w, w.ops[i], e.move) {
      TryingMove(w, w.ops[i], e.move);
    }
  }

  /** The count that an owner holds is one that it has read from the counter. */
  lemma {:induction false} CountWasRead(w: World, events: seq<Event>, i: nat) returns (k: nat)
    requires var v := Run(w, events); |w.ops| <= i < |v.ops| && v.ops[i].owner.Trying?
    ensures k < |events| && ReadsAt(w, events, i, k, Run(w, events).ops[i].owner.count)
    decreases |events|
  {
    hide Step;
    var n := |events| - 1;
    var u, e := Run(w, events[..n]), events[n];
    TryingStep(u, e, i);
    if e.At? && e.index == i && (e.move.Load? || e.move.Swap?) && Step(u, e).ops[i].owner.count == u.active {
      k := n;
    } else {
      k := CountWasRead(w, events[..n], i);
      assert events[..n][..k] == events[..k];
    }
  }

  /** An owner is turned away only after it has read a full counter: at that moment of the run every
      admission slot was taken. It then completes its record itself, without a slot. */
  lemma RefusedOnlyWhenFull(limit: nat, console: bool, events: seq<Event>, i: nat, why: Result) returns (k: nat)
    requires var w := Run(World(limit, console, 0, []), events); i < |w.ops| && Enabled(w, w.ops[i], Decide(why))
    ensures k < |events| && ReadsAt(World(limit, console, 0, []), events, i, k, limit)
    ensures Slots(Run(World(limit, console, 0, []), events[..k]).ops) == limit
    ensures var op := Step(Run(World(limit, console, 0, []), events), At(i, Decide(why))).ops[i];
            op.owner.Holding? && op.done && op.result == Some(why) && !op.admitted
  {
    var start := World(limit, console, 0, []);
    var w := Run(start, events);
    RunKeeps(start, events);
    SameLimit(start, events);
    assert OpOk(w, w.ops[i]);
    k := CountWasRead(start, events, i);
    RunKeeps(start, events[..k]);
  }
}
