/** The task session as src/vm/tasks.c implements it: task records and a completion ring
    (a fixed buffer indexed modulo its capacity) that nested loops update in place. Every
    method is proved to compute the function of TaskModel that specifies it. */
module TaskSession {
  import opened TaskModel
  import TaskEffects
  import TaskProofs
  import TaskRuns
  import TaskTheorems

  /** The queued completions of a ring buffer, oldest first. */
  ghost function RingOf(events: seq<Completion>, head: nat, n: nat): (r: seq<Completion>)
    requires head < |events| && n <= |events|
    ensures |r| == n
  {
    seq(n, k requires 0 <= k < n => events[TaskRuns.Ahead(|events|, head, k)])
  }

  lemma RingPop(events: seq<Completion>, head: nat, n: nat)
    requires head < |events| && 0 < n <= |events|
    ensures RingOf(events, head, n)[0] == events[head]
    ensures RingOf(events, (head + 1) % |events|, n - 1) == RingOf(events, head, n)[1..]
  {
    TaskRuns.NextSlot(|events|, head);
  }

  lemma WrapAdd(m: nat, a: nat, b: nat)
    requires a < m && b < m
    ensures (a + b) % m == TaskRuns.Ahead(m, a, b)
  {
    var d := (a + b) / m;
    assert a + b == m * d + (a + b) % m;
    assert d >= 2 ==> m * d >= m * 2;
    assert d == 1 ==> m * d == m;
    assert d <= 0 ==> m * d <= 0;
  }

  lemma RingPush(events: seq<Completion>, head: nat, n: nat, e: Completion)
    requires head < |events| && n < |events|
    ensures var tail := (head + n) % |events|;
            RingOf(events[tail := e], head, n + 1) == RingOf(events, head, n) + [e]
  {
    WrapAdd(|events|, head, n);
  }

  class VMTasks {
    var tasks: seq<Task>
    const capacity: nat
    const events: array<Completion>
    var head: nat
    var eventCount: nat
    var cursor: nat
    const identity: nat
    var now: nat
    var registered: nat
    var released: nat
    var pumping: bool
    ghost var dispatched: seq<Dispatch>
    ghost var delivered: seq<OpId>

    ghost predicate Valid()
      reads this
    {
      && head < events.Length && eventCount <= events.Length
      && (cursor == 0 || cursor < |tasks|)
      && Tree(Parents(tasks))
      && (forall i :: 0 <= i < |tasks| && tasks[i].queued ==> tasks[i].pending)
    }

    ghost function State(): Session
      requires head < events.Length && eventCount <= events.Length
      reads this, events
    {
      Session(tasks, RingOf(events[..], head, eventCount), capacity, events.Length, cursor,
              identity, now, registered, released, pumping, dispatched, delivered)
    }

    constructor (taskLimit: nat, eventLimit: nat, lastSession: nat)
      requires taskLimit > 0 && eventLimit > 0 && lastSession < U64_MAX
      ensures Valid() && fresh(events)
      ensures Create(taskLimit, eventLimit, lastSession) == Some(State())
    {
      capacity := taskLimit;
      events := new Completion[eventLimit];
      tasks, head, eventCount, cursor := [], 0, 0, 0;
      identity := lastSession + 1;
      now, registered, released, pumping := 0, 0, 0, false;
      dispatched, delivered := [], [];
      new;
      assert RingOf(events[..], 0, 0) == [];
    }

    method ReleaseRequest(i: nat)
      requires Valid() && i < |tasks|
      modifies this`released, this`tasks
      ensures Valid() && |tasks| == |old(tasks)| && Parents(tasks) == Parents(old(tasks))
      ensures State() == Put(old(State()), i, old(tasks)[i].(pending := false, queued := false))
    {
      if tasks[i].pending {
        tasks := tasks[i := tasks[i].(pending := false, queued := false)];
        released := released + 1;
      }
      assert tasks == old(tasks)[i := old(tasks)[i].(pending := false, queued := false)];
      assert Parents(tasks) == Parents(old(tasks));
    }

    method FinishBody(i: nat, outcome: Status, result: Option<int>)
      requires Valid() && i < |tasks|
      modifies this`released, this`tasks
      ensures Valid() && |tasks| == |old(tasks)| && Parents(tasks) == Parents(old(tasks))
      ensures State() == TaskModel.FinishBody(old(State()), i, outcome, result)
    {
      hide RingOf;
      tasks := tasks[i := tasks[i].(result := if outcome.Completed? then result else None)];
      assert Parents(tasks) == Parents(old(tasks));
      ReleaseRequest(i);
      tasks := tasks[i := tasks[i].(outcome := outcome, status := Joining)];
      assert tasks == old(tasks)[i := Finished(old(tasks)[i], outcome, result)];
      assert Parents(tasks) == Parents(old(tasks));
    }

    /** `descendant` walks the parent chain. */
    method IsDescendant(start: nat, root: nat) returns (r: bool)
      requires Tree(Parents(tasks)) && start <= |tasks|
      ensures r == Descendant(Parents(tasks), start, root)
    {
      var slot: nat := start;
      while slot != 0 && slot != root
        invariant slot <= |tasks|
        invariant Descendant(Parents(tasks), slot, root) == Descendant(Parents(tasks), start, root)
        decreases slot
      {
        slot := tasks[slot - 1].parent;
      }
      r := slot == root;
    }

    /** `cancel_tree` (self) and `cancel_children` (not self): one reverse loop. */
    method Cancel(root: nat, self: bool)
      requires Valid()
      modifies this`released, this`tasks
      ensures Valid() && |tasks| == |old(tasks)| && Parents(tasks) == Parents(old(tasks))
      ensures State() == TaskModel.Cancel(old(State()), root, self)
    {
      hide RingOf, Descendant, CancelledTask, PendingCount;
      ghost var goal := CancelTasks(tasks, root, self);
      var i: nat := |tasks|;
      while i > 0
        invariant i <= |tasks| == |old(tasks)| && Valid()
        invariant Parents(tasks) == Parents(old(tasks))
        invariant forall k :: 0 <= k < i ==> tasks[k] == old(tasks)[k]
        invariant forall k :: i <= k < |tasks| ==> tasks[k] == goal[k]
        invariant released - old(released) == PendingCount(old(tasks)) - PendingCount(tasks)
      {
        i := i - 1;
        var below := IsDescendant(i + 1, root);
        if !Terminal(tasks[i].status) && (self || i + 1 != root) && below {
          CancelOne(i);
        }
      }
      assert tasks == goal;
    }

    method CancelOne(i: nat)
      requires Valid() && i < |tasks|
      modifies this`released, this`tasks
      ensures Valid() && tasks == old(tasks)[i := CancelledTask(old(tasks)[i])]
      ensures Parents(tasks) == Parents(old(tasks))
      ensures released - old(released) == PendingCount(old(tasks)) - PendingCount(tasks)
    {
      FinishBody(i, Cancelled, None);
      tasks := tasks[i := tasks[i].(status := Cancelled)];
      assert Parents(tasks) == Parents(old(tasks));
      TaskRuns.PendingCountUpdate(old(tasks), i, CancelledTask(old(tasks)[i]));
    }

    /** The child loop of `settle`. */
    method AllChildrenTerminal(i: nat) returns (joined: bool)
      requires i < |tasks|
      ensures joined == Joined(tasks, i)
    {
      joined := true;
      for child := i + 1 to |tasks|
        invariant joined == forall c :: i < c < child && tasks[c].parent == i + 1 ==> Terminal(tasks[c].status)
      {
        if tasks[child].parent == i + 1 && !Terminal(tasks[child].status) {
          joined := false;
        }
      }
    }

    method JoinAt(i: nat)
      requires Valid() && i < |tasks|
      modifies this`tasks
      ensures Valid() && |tasks| == |old(tasks)| && Parents(tasks) == Parents(old(tasks))
      ensures State() == TaskModel.JoinAt(old(State()), i)
    {
      if tasks[i].status.Joining? {
        var joined := AllChildrenTerminal(i);
        if joined {
          tasks := tasks[i := tasks[i].(status := tasks[i].outcome)];
        }
      }
      assert Parents(tasks) == Parents(old(tasks));
    }

    method PropagateAt(i: nat)
      requires Valid() && i < |tasks|
      modifies this`released, this`tasks
      ensures Valid() && |tasks| == |old(tasks)| && Parents(tasks) == Parents(old(tasks))
      ensures State() == TaskModel.PropagateAt(old(State()), i)
    {
      hide CancelTasks, PendingCount, RingOf;
      var t := tasks[i];
      if Terminal(t.status) && !t.status.Completed? && t.parent != 0 {
        var p := tasks[t.parent - 1];
        if !Terminal(p.status) && !p.outcome.Trapped? && !p.outcome.Exited? {
          FinishBody(t.parent - 1, Trapped, None);
          Cancel(t.parent, false);
        }
      }
    }

    /** `settle`: one reverse traversal. */
    method Settle()
      requires Valid()
      modifies this`released, this`tasks
      ensures Valid() && |tasks| == |old(tasks)| && Parents(tasks) == Parents(old(tasks))
      ensures State() == TaskModel.Settle(old(State()))
    {
      hide TaskModel.JoinAt, TaskModel.PropagateAt, RingOf;
      var i: nat := |tasks|;
      while i > 0
        invariant i <= |tasks| == |old(tasks)| && Valid() && Parents(tasks) == Parents(old(tasks))
        invariant State() == old(State()).(tasks := tasks, released := released)
        invariant SettleBelow(State(), i) == SettleBelow(old(State()), |old(tasks)|)
      {
        i := i - 1;
        JoinAt(i);
        PropagateAt(i);
      }
    }

    method EndBody(i: nat, outcome: Status, result: Option<int>)
      requires Valid() && i < |tasks|
      modifies this`released, this`tasks
      ensures Valid() && |tasks| == |old(tasks)| && Parents(tasks) == Parents(old(tasks))
      ensures State() == TaskModel.EndBody(old(State()), i, outcome, result)
    {
      hide TaskModel.Cancel, TaskModel.Settle, RingOf;
      FinishBody(i, outcome, result);
      if !outcome.Completed? {
        Cancel(i + 1, false);
      }
      Settle();
    }

    method Lookup(id: TaskId) returns (i: Option<nat>)
      requires Valid()
      ensures i == TaskModel.Lookup(State(), id)
    {
      if id.session != identity || id.slot == 0 || id.slot > |tasks| {
        i := None;
      } else {
        i := Some(id.slot - 1);
      }
    }

    /** `complete`: writes the completion behind the newest one. */
    method Complete(op: OpId, traps: bool, read: bool) returns (ok: bool)
      requires Valid()
      modifies this`tasks, this`eventCount, events
      ensures Valid()
      ensures (State(), ok) == CompleteCall(old(State()), op, traps, read)
    {
      var i := Lookup(op.task);
      if i.None? || pumping || tasks[i.value].asyncRead != read || !tasks[i.value].pending
         || tasks[i.value].queued || tasks[i.value].generation != op.generation
         || eventCount == events.Length {
        ok := false;
      } else {
        RingPush(events[..], head, eventCount, Completion(op, traps));
        hide RingOf;
        var tail := (head + eventCount) % events.Length;
        events[tail] := Completion(op, traps);
        assert events[..] == old(events[..])[tail := Completion(op, traps)];
        eventCount := eventCount + 1;
        tasks := tasks[i.value := tasks[i.value].(queued := true)];
        assert Parents(tasks) == Parents(old(tasks));
        ok := true;
      }
    }

    method TakeEvent() returns (event: Completion)
      requires Valid() && eventCount > 0
      modifies this`head, this`eventCount
      ensures Valid() && eventCount == old(eventCount) - 1
      ensures event == old(State()).ring[0]
      ensures State() == old(State()).(ring := old(State()).ring[1..])
    {
      RingPop(events[..], head, eventCount);
      event := events[head];
      head := (head + 1) % events.Length;
      eventCount := eventCount - 1;
    }

    method DeliverEvent(event: Completion)
      requires Valid()
      modifies this`tasks, this`released, this`delivered
      ensures Valid() && |tasks| == |old(tasks)|
      ensures State() == TaskModel.DeliverEvent(old(State()), event)
    {
      hide RingOf, TaskModel.EndBody;
      var i := Lookup(event.op.task);
      if i.Some? && tasks[i.value].pending && tasks[i.value].generation == event.op.generation {
        ReleaseRequest(i.value);
        tasks := tasks[i.value := tasks[i.value].(status := Ready)];
        assert tasks == old(tasks)[i.value :=
          old(tasks)[i.value].(pending := false, queued := false, status := Ready)];
        assert Parents(tasks) == Parents(old(tasks));
        delivered := delivered + [event.op];
        if event.traps {
          EndBody(i.value, Trapped, None);
        }
      }
    }

    method DeliverCompletions()
      requires Valid()
      modifies this`tasks, this`released, this`head, this`eventCount, this`delivered
      ensures Valid() && |tasks| == |old(tasks)|
      ensures State() == Deliver(old(State()))
    {
      hide TaskModel.DeliverEvent, RingOf;
      while eventCount > 0
        invariant Valid() && |tasks| == |old(tasks)|
        invariant Deliver(State()) == Deliver(old(State()))
      {
        var event := TakeEvent();
        DeliverEvent(event);
      }
    }

    /** The deadline loop of `vm_tasks_pump`. */
    method ExpireTasks()
      requires Valid()
      modifies this`released, this`tasks
      ensures Valid() && |tasks| == |old(tasks)| && Parents(tasks) == Parents(old(tasks))
      ensures State() == ExpireFrom(old(State()), 0)
    {
      hide TaskModel.Cancel, RingOf;
      var i: nat := 0;
      while i < |tasks|
        invariant i <= |tasks| == |old(tasks)| && Valid() && Parents(tasks) == Parents(old(tasks))
        invariant State() == old(State()).(tasks := tasks, released := released)
        invariant ExpireFrom(State(), i) == ExpireFrom(old(State()), 0)
      {
        if Expired(tasks[i], now) {
          Cancel(i + 1, true);
        }
        i := i + 1;
      }
    }

    /** The cursor loop of `vm_tasks_pump`. */
    method ScanReady() returns (found: Option<nat>)
      requires Valid() && tasks != []
      modifies this`cursor
      ensures Valid() && (found, cursor) == Scan(tasks, old(cursor), |tasks|)
    {
      found := None;
      var scanned: nat := 0;
      while scanned < |tasks|
        invariant scanned <= |tasks| && Valid() && found.None?
        invariant Scan(tasks, cursor, |tasks| - scanned) == Scan(tasks, old(cursor), |tasks|)
      {
        var slot := cursor;
        cursor := (cursor + 1) % |tasks|;
        if tasks[slot].status.Ready? {
          found := Some(slot);
          break;
        }
        scanned := scanned + 1;
      }
    }

    /** One dispatched instruction; a waiting body registers its request first. */
    method Advance(i: nat, o: Outcome)
      requires Valid() && i < |tasks|
      modifies this`tasks, this`released, this`registered
      ensures Valid() && |tasks| == |old(tasks)| && Parents(tasks) == Parents(old(tasks))
      ensures State() == TaskModel.Advance(old(State()), i, o)
    {
      hide TaskModel.EndBody, RingOf;
      match o
      case Yield =>
      case Wait =>
        if tasks[i].pending || tasks[i].generation == U64_MAX || registered == SIZE_MAX {
          EndBody(i, Trapped, None);
        } else {
          tasks := tasks[i := tasks[i].(generation := tasks[i].generation + 1, pending := true)];
          registered := registered + 1;
          tasks := tasks[i := tasks[i].(status := Waiting)];
          assert Parents(tasks) == Parents(old(tasks));
        }
      case Complete(v) => EndBody(i, Completed, Some(v));
      case Trap => EndBody(i, Trapped, None);
      case Exit => EndBody(i, Exited, None);
    }

    /** The dispatch loop; `first` numbers the next dispatch for the oracle. */
    method DispatchReady(budget: nat, first: nat, oracle: nat -> Outcome)
      requires Valid() && first == |dispatched|
      modifies this`tasks, this`released, this`registered, this`cursor, this`dispatched
      ensures Valid() && |tasks| == |old(tasks)|
      ensures State() == DispatchLoop(old(State()), budget, oracle)
      ensures TaskRuns.Core(old(State())) ==>
        TaskEffects.Dispatching(old(dispatched), old(tasks), dispatched, tasks, budget, oracle)
    {
      hide TaskModel.Advance, RingOf, Scan, DispatchLoop, TaskRuns.Core, TaskEffects.Dispatching;
      DispatchesAsAnswered(State(), budget, oracle);
      var left, step := budget, first;
      while left > 0 && |tasks| > 0
        invariant Valid() && |tasks| == |old(tasks)| && step == |dispatched|
        invariant DispatchLoop(State(), left, oracle) == DispatchLoop(old(State()), budget, oracle)
      {
        ghost var before, from := tasks, cursor;
        DispatchLoopUnfolds(State(), left, oracle);
        var task := ScanReady();
        if task.None? {
          return;
        }
        dispatched := dispatched + [Dispatch(before, from, registered, task.value, oracle(step))];
        left := left - 1;
        Advance(task.value, oracle(step));
        step := step + 1;
      }
      DispatchLoopUnfolds(State(), left, oracle);
    }

    /** `vm_tasks_pump`: completions, then deadlines, then dispatch. */
    method Pump(time: nat, budget: nat, first: nat, oracle: nat -> Outcome) returns (ok: bool)
      requires Valid() && first == |dispatched|
      modifies this
      ensures Valid()
      ensures (State(), ok) == TaskModel.Pump(old(State()), time, budget, oracle)
      ensures TaskRuns.Inv(old(State())) ==>
        && TaskRuns.Inv(State()) && (ok <==> old(now) <= time)
        && (ok ==>
              && now == time && TaskRuns.NoneExpired(tasks, time)
              && TaskEffects.Dispatching(old(dispatched), Prepare(old(State()), time).tasks, dispatched, tasks, budget, oracle))
    {
      hide Deliver, ExpireFrom, TaskModel.Settle, DispatchLoop, RingOf, TaskRuns.Inv, TaskRuns.NoneExpired,
        TaskEffects.Dispatching;
      PumpsAsAnswered(State(), time, budget, oracle);
      if pumping || time < now {
        ok := false;
      } else {
        pumping := true;
        now := time;
        DeliverCompletions();
        ExpireTasks();
        Settle();
        DispatchReady(budget, first, oracle);
        pumping := false;
        ok := true;
      }
    }

    /** `vm_tasks_spawn`; `created` says whether the execution could be created. */
    method Spawn(parent: TaskId, asyncRead: bool, deadline: nat, created: bool) returns (id: TaskId)
      requires Valid()
      modifies this`tasks
      ensures Valid()
      ensures (State(), id) == TaskModel.Spawn(old(State()), parent, asyncRead, deadline, created)
    {
      hide RingOf;
      var ancestor := Lookup(parent);
      var root := parent.session == 0 && parent.slot == 0;
      id := TaskId(0, 0);
      if pumping || |tasks| == capacity
         || (!root && (ancestor.None? || (!tasks[ancestor.value].status.Ready?
                                          && !tasks[ancestor.value].status.Waiting?))) {
        return;
      }
      var limit := deadline;
      if ancestor.Some? && tasks[ancestor.value].deadline < deadline {
        limit := tasks[ancestor.value].deadline;
      }
      if created {
        id := TaskId(identity, |tasks| + 1);
        tasks := tasks + [Task(parent.slot, limit, 0, Ready, Invalid, None, asyncRead, false, false)];
        assert Parents(tasks) == Parents(old(tasks)) + [parent.slot];
      }
    }

    /** `vm_tasks_cancel` */
    method CancelTask(id: TaskId) returns (ok: bool)
      requires Valid()
      modifies this`tasks, this`released
      ensures Valid()
      ensures (State(), ok) == CancelCall(old(State()), id)
      ensures TaskProofs.Quiet(old(tasks)) ==> TaskEffects.Cancels(old(State()), id, State(), ok)
    {
      hide TaskModel.Cancel, TaskModel.Settle, RingOf, TaskProofs.Quiet, TaskEffects.Cancels;
      if TaskProofs.Quiet(tasks) {
        TaskEffects.CancelTakes(State(), id);
      }
      var i := Lookup(id);
      if i.None? || pumping {
        ok := false;
      } else {
        Cancel(id.slot, true);
        Settle();
        ok := true;
      }
    }
  }

  /** One pass of the dispatch loop. */
  lemma DispatchLoopUnfolds(s: Session, budget: nat, oracle: nat -> Outcome)
    requires Tree(Parents(s.tasks)) && (s.tasks != [] ==> s.cursor < |s.tasks|)
    ensures budget == 0 || s.tasks == [] ==> DispatchLoop(s, budget, oracle) == s
    ensures budget > 0 && s.tasks != [] ==>
              var (found, cursor') := Scan(s.tasks, s.cursor, |s.tasks|);
              if found.None? then DispatchLoop(s, budget, oracle) == s.(cursor := cursor')
              else
                var answer := oracle(|s.dispatched|);
                var t := TaskModel.Advance(Dispatched(s, found.value, cursor', answer), found.value, answer);
                && Tree(Parents(t.tasks)) && (t.tasks != [] ==> t.cursor < |t.tasks|)
                && DispatchLoop(s, budget, oracle) == DispatchLoop(t, budget - 1, oracle)
  {
    hide TaskModel.Advance, Scan;
  }

  lemma DispatchesAsAnswered(s: Session, budget: nat, oracle: nat -> Outcome)
    requires Tree(Parents(s.tasks)) && (s.tasks != [] ==> s.cursor < |s.tasks|)
    ensures TaskRuns.Core(s) ==>
      var r := DispatchLoop(s, budget, oracle);
      TaskEffects.Dispatching(s.dispatched, s.tasks, r.dispatched, r.tasks, budget, oracle)
  {
    hide TaskRuns.Core, TaskEffects.Dispatching, DispatchLoop;
    if TaskRuns.Core(s) {
      var r := TaskTheorems.DispatchLoopWorks(s, budget, oracle);
    }
  }

  lemma PumpsAsAnswered(s: Session, time: nat, budget: nat, oracle: nat -> Outcome)
    requires Tree(Parents(s.tasks)) && (s.tasks != [] ==> s.cursor < |s.tasks|)
    ensures TaskRuns.Inv(s) ==>
      var (r, ok) := TaskModel.Pump(s, time, budget, oracle);
      && TaskRuns.Inv(r) && (ok <==> s.now <= time)
      && (ok ==>
            && r.now == time && TaskRuns.NoneExpired(r.tasks, time)
            && TaskEffects.Dispatching(s.dispatched, Prepare(s, time).tasks, r.dispatched, r.tasks, budget, oracle))
  {
    hide TaskRuns.Inv, TaskRuns.NoneExpired, TaskEffects.Dispatching, TaskModel.Pump, Prepare;
    if TaskRuns.Inv(s) {
      var r := TaskTheorems.PumpWorks(s, time, budget, oracle);
    }
  }
}
