/** The guarantees of a task session over whole runs: structured scopes, final outcomes,
    conserved requests, single delivery, deadlines and round-robin fairness. */
module TaskTheorems {
  import opened TaskModel
  import opened TaskProofs
  import opened TaskRuns
  import opened TaskExpiry
  import opened TaskEffects

  // ----- Every public call keeps the invariant -----

  lemma DispatchOnce(s: Session, budget: nat, oracle: nat -> Outcome) returns (m: Session, d: Dispatch)
    requires Core(s) && s.tasks != [] && Scan(s.tasks, s.cursor, |s.tasks|).0.Some? && budget > 0
    ensures Core(m) && |m.tasks| == |s.tasks|
    ensures AllLater(s.tasks, m.tasks) && LiveShrinks(s.tasks, m.tasks)
    ensures m.dispatched == s.dispatched + [d] && d.tasks == s.tasks && d.answer == oracle(|s.dispatched|)
    ensures Took(d, m.tasks)
    ensures Tree(Parents(s.tasks)) && DispatchLoop(s, budget, oracle) == DispatchLoop(m, budget - 1, oracle)
  {
    assert Tree(Parents(s.tasks)) && Quiet(s.tasks);
    hide Core, Quiet, Advance, AllLater, LiveShrinks, Scan, Took;
    var (found, cursor') := Scan(s.tasks, s.cursor, |s.tasks|);
    var answer := oracle(|s.dispatched|);
    DispatchedKeepsCore(s, answer);
    m := AdvanceWorks(Dispatched(s, found.value, cursor', answer), found.value, answer);
    AdvanceTakes(Dispatched(s, found.value, cursor', answer), found.value, answer, s.cursor);
    d := Dispatch(s.tasks, s.cursor, s.registered, found.value, answer);
  }

  lemma {:induction false} DispatchLoopWorks(s: Session, budget: nat, oracle: nat -> Outcome)
    returns (r: Session)
    requires Core(s)
    ensures r == DispatchLoop(s, budget, oracle) && Core(r) && |r.tasks| == |s.tasks|
    ensures AllLater(s.tasks, r.tasks) && LiveShrinks(s.tasks, r.tasks)
    ensures Dispatching(s.dispatched, s.tasks, r.dispatched, r.tasks, budget, oracle)
    decreases budget
  {
    hide DispatchLoop, Scan, Core, AllLater, LiveShrinks, Dispatching, Took;
    CoreCursor(s);
    if budget > 0 && s.tasks != [] && Scan(s.tasks, s.cursor, |s.tasks|).0.Some? {
      var m, d := DispatchOnce(s, budget, oracle);
      r := DispatchLoopWorks(m, budget - 1, oracle);
      LaterTwice(s.tasks, m.tasks, r.tasks);
      LiveShrinksTwice(s.tasks, m.tasks, r.tasks);
      ChainLonger(s.dispatched, d, m.tasks, r.dispatched, r.tasks, budget, oracle);
    } else {
      DispatchStops(s, budget, oracle);
      r := s;
    }
  }

  lemma CoreCursor(s: Session)
    requires Core(s)
    ensures Tree(Parents(s.tasks)) && CursorOk(s)
  {
  }

  lemma DispatchStops(s: Session, budget: nat, oracle: nat -> Outcome)
    requires CursorOk(s) && Tree(Parents(s.tasks))
    requires budget == 0 || s.tasks == [] || Scan(s.tasks, s.cursor, |s.tasks|).0.None?
    ensures DispatchLoop(s, budget, oracle) == s
    ensures Dispatching(s.dispatched, s.tasks, s.dispatched, s.tasks, budget, oracle)
    ensures AllLater(s.tasks, s.tasks) && LiveShrinks(s.tasks, s.tasks)
  {
    hide Scan, Took;
    LaterSelf(s.tasks);
    if s.tasks != [] && budget > 0 {
      ScanFull(s.tasks, s.cursor);
      ScanSawAll(s.tasks, s.cursor);
    }
  }

  lemma ExpiredShrinks(ts: seq<Task>, ts': seq<Task>, now: nat)
    requires AllLater(ts, ts') && LiveShrinks(ts, ts') && NoneExpired(ts, now)
    ensures NoneExpired(ts', now)
  {
    forall k | 0 <= k < |ts'| ensures !Expired(ts'[k], now) {
      assert Later(ts[k], ts'[k]) && !Expired(ts[k], now);
    }
  }

  /** A pump is refused while another runs and when time goes backwards. It leaves no live task
      past its deadline, then dispatches as often as its budget allows and tasks are ready. */
  lemma PumpWorks(s: Session, now: nat, budget: nat, oracle: nat -> Outcome) returns (r: Session)
    requires Inv(s)
    ensures r == Pump(s, now, budget, oracle).0 && Inv(r) && AllLater(s.tasks, r.tasks)
    ensures Pump(s, now, budget, oracle).1 <==> s.now <= now
    ensures now < s.now ==> r == s
    ensures s.now <= now ==>
      && r.now == now && NoneExpired(r.tasks, now)
      && Dispatching(s.dispatched, Prepare(s, now).tasks, r.dispatched, r.tasks, budget, oracle)
  {
    assert Tree(Parents(s.tasks));
    if now < s.now {
      r := s;
    } else {
      var p := PrepareWorks(s, now);
      hide Core, Prepare, DispatchLoop, AllLater, LiveShrinks, NoneExpired, Dispatching;
      var d := DispatchLoopWorks(p, budget, oracle);
      ExpiredShrinks(p.tasks, d.tasks, now);
      LaterTwice(s.tasks, p.tasks, d.tasks);
      r := d.(pumping := false);
      ClockKeepsCore(d, r);
    }
  }

  /** Between the completions and the dispatches of a pump, deadlines take their trees. */
  lemma PrepareTakes(s: Session, now: nat)
    requires Core(s)
    ensures Tree(Parents(s.tasks))
    ensures var m := Deliver(s.(pumping := true, now := now));
            Tree(Parents(m.tasks)) && Expires(m.tasks, now, Prepare(s, now).tasks)
  {
    hide Core, Quiet, Settle, ExpireFrom, Deliver, Expires;
    CoreClosed(s);
    var s0 := s.(pumping := true, now := now);
    ClockKeepsCore(s, s0);
    var m := DeliverWorks(s0);
    CoreQuiet(m);
    var r := ExpiryTakes(m);
  }

  lemma CoreQuiet(s: Session)
    requires Core(s)
    ensures Quiet(s.tasks) && Balanced(s)
  {
  }

  lemma SpawnQuiet(ts: seq<Task>, t: Task)
    requires Quiet(ts) && Coherent(t) && t.status.Ready? && t.parent <= |ts|
    requires t.parent > 0 ==> Unfinished(ts[t.parent - 1])
    ensures Quiet(ts + [t])
  {
    var r := ts + [t];
    assert Parents(r) == Parents(ts) + [t.parent];
    forall c | HasParent(r, c) ensures EdgeOk(r[c], r[r[c].parent - 1]) {
      assert c < |ts| ==> HasParent(ts, c);
    }
    assert Closed(r);
    hide Closed;
    forall k | 0 <= k < |r| ensures SettledAt(r, k) {
      assert k < |ts| ==> SettledAt(ts, k);
      if r[k].status.Joining? {
        var c :| k < c < |ts| && ts[c].parent == k + 1 && !Terminal(ts[c].status);
        assert r[c] == ts[c];
      }
    }
  }

  lemma SpawnRing(s: Session, t: Task)
    requires RingOk(s) && DeliveredOk(s) && !t.queued && !t.pending
    ensures RingOk(s.(tasks := s.tasks + [t])) && DeliveredOk(s.(tasks := s.tasks + [t]))
  {
    var r := s.(tasks := s.tasks + [t]);
    forall k | 0 <= k < |r.ring| ensures EventOk(r, r.ring[k]) {
      assert EventOk(s, s.ring[k]);
    }
    forall i | 0 <= i < |r.tasks| && r.tasks[i].queued ensures InRing(r, i) {
      assert InRing(s, i);
    }
    forall k | 0 <= k < |r.delivered| ensures Spent(r, r.delivered[k]) {
      assert Spent(s, s.delivered[k]);
    }
  }

  /** Admitting a fresh ready task under an unfinished parent. */
  lemma AdmitWorks(s: Session, t: Task)
    requires Core(s) && Coherent(t) && t.status.Ready? && t.parent <= |s.tasks|
    requires t.parent > 0 ==>
      Unfinished(s.tasks[t.parent - 1]) && t.deadline <= s.tasks[t.parent - 1].deadline
    ensures Core(s.(tasks := s.tasks + [t])) && AllLater(s.tasks, s.tasks + [t])
  {
    hide Quiet, RingOk, DeliveredOk, DeadlinesOk, DispatchesOk;
    var r := s.(tasks := s.tasks + [t]);
    SpawnQuiet(s.tasks, t);
    SpawnRing(s, t);
    SpawnDeadlines(s.tasks, t);
    DispatchTransfer(s, r);
    assert r.tasks[..|s.tasks|] == s.tasks;
  }

  lemma SpawnWorks(s: Session, parent: TaskId, asyncRead: bool, deadline: nat, created: bool)
    requires Inv(s)
    ensures var (r, id) := Spawn(s, parent, asyncRead, deadline, created);
            && Inv(r) && AllLater(s.tasks, r.tasks)
            && Spawns(s, parent, asyncRead, deadline, created, r, id)
  {
    SpawnTakes(s, parent, asyncRead, deadline, created);
    hide Spawns;
    if Admits(s, parent) && created {
      hide Core;
      AdmitWorks(s, Spawn(s, parent, asyncRead, deadline, created).0.tasks[|s.tasks|]);
    }
  }

  lemma SpawnDeadlines(ts: seq<Task>, t: Task)
    requires DeadlinesOk(ts) && t.parent <= |ts|
    requires t.parent > 0 ==> t.deadline <= ts[t.parent - 1].deadline
    ensures DeadlinesOk(ts + [t])
  {
    var r := ts + [t];
    forall c | HasParent(r, c) ensures r[c].deadline <= r[r[c].parent - 1].deadline {
      assert c < |ts| ==> HasParent(ts, c);
    }
  }

  lemma CancelWorks(s: Session, id: TaskId) returns (r: Session)
    requires Inv(s)
    ensures r == CancelCall(s, id).0 && Inv(r) && AllLater(s.tasks, r.tasks)
    ensures Cancels(s, id, r, CancelCall(s, id).1)
  {
    assert Tree(Parents(s.tasks));
    CancelTakes(s, id);
    hide Cancels;
    if Lookup(s, id).None? {
      r := s;
    } else {
      CancelKeepsBalanced(s, id.slot, true);
      CancelKeepsClosed(s.tasks, id.slot, true);
      var c := Cancel(s, id.slot, true);
      r := Settled(c);
      hide Quiet, Closed, Balanced, Settle, Cancel, Core, AllStep, AllLater, Evolves;
      EvolvesTwice(s.tasks, c.tasks, r.tasks);
      EvolvedQuietSteps(s.tasks, r.tasks);
      CoreTransfer(s, r);
    }
  }

  lemma CompleteRing(s: Session, op: OpId, traps: bool, read: bool)
    requires Core(s) && Accepts(s, op, read)
    ensures RingOk(CompleteCall(s, op, traps, read).0)
  {
    hide DeliveredOk, DispatchesOk, DeadlinesOk, Balanced;
    var r, i := CompleteCall(s, op, traps, read).0, op.task.slot - 1;
    assert Coherent(s.tasks[i]);
    forall k | 0 <= k < |r.ring| ensures EventOk(r, r.ring[k]) && (k < |s.ring| ==> r.ring[k].op.task.slot != op.task.slot) {
      assert k < |s.ring| ==> EventOk(s, s.ring[k]);
    }
    forall j | 0 <= j < |r.tasks| && r.tasks[j].queued ensures InRing(r, j) {
      if j == i {
        assert r.ring[|s.ring|].op == op;
      } else {
        assert InRing(s, j);
        var k :| 0 <= k < |s.ring| && s.ring[k].op == OpId(TaskId(s.identity, j + 1), s.tasks[j].generation);
        assert r.ring[k] == s.ring[k];
      }
    }
  }

  lemma QueueKeepsTasks(s: Session, i: nat)
    requires Core(s) && i < |s.tasks| && s.tasks[i].pending
    ensures var ts := s.tasks[i := s.tasks[i].(queued := true)];
            && Quiet(ts) && PendingCount(ts) == PendingCount(s.tasks)
            && AllLater(s.tasks, ts) && DeadlinesOk(ts)
  {
    hide RingOk, DeliveredOk, DispatchesOk;
    var t := s.tasks[i].(queued := true);
    assert Coherent(s.tasks[i]);
    QuietUpdate(s.tasks, i, t);
    PendingCountUpdate(s.tasks, i, t);
    DeadlinesTransfer(s.tasks, s.tasks[i := t]);
  }

  lemma AcceptedWorks(s: Session, op: OpId, traps: bool, read: bool)
    requires Core(s) && Accepts(s, op, read)
    ensures var r := CompleteCall(s, op, traps, read).0; Core(r) && AllLater(s.tasks, r.tasks)
  {
    hide Quiet, RingOk, DeliveredOk, DispatchesOk, DeadlinesOk, AllLater;
    var r := CompleteCall(s, op, traps, read).0;
    CompleteRing(s, op, traps, read);
    QueueKeepsTasks(s, op.task.slot - 1);
    DispatchTransfer(s, r);
    DeliveredTransfer(s, r);
  }

  lemma CompleteWorks(s: Session, op: OpId, traps: bool, read: bool)
    requires Inv(s)
    ensures var (r, ok) := CompleteCall(s, op, traps, read);
            && Inv(r) && AllLater(s.tasks, r.tasks)
            && Completes(s, op, traps, read, r, ok)
  {
    hide Core, AllLater, Completes, Quiet;
    CoreQuiet(s);
    CompleteTakes(s, op, traps, read);
    LaterSelf(s.tasks);
    if Accepts(s, op, read) {
      AcceptedWorks(s, op, traps, read);
    }
  }

  lemma LaterSelf(ts: seq<Task>)
    ensures AllLater(ts, ts)
  {
  }

  // ----- Runs -----

  /** A public call that can change the session; `oracle` is what the dispatched bodies do. */
  datatype Call =
    | SpawnTask(parent: TaskId, asyncRead: bool, deadline: nat, created: bool)
    | CancelTask(id: TaskId)
    | CompleteOp(op: OpId, traps: bool, read: bool)
    | PumpTasks(now: nat, budget: nat, oracle: nat -> Outcome)

  ghost function Apply(s: Session, c: Call): Session
    requires Tree(Parents(s.tasks)) && CursorOk(s)
  {
    match c
    case SpawnTask(parent, asyncRead, deadline, created) => Spawn(s, parent, asyncRead, deadline, created).0
    case CancelTask(id) => CancelCall(s, id).0
    case CompleteOp(op, traps, read) => CompleteCall(s, op, traps, read).0
    case PumpTasks(now, budget, oracle) => Pump(s, now, budget, oracle).0
  }

  lemma ApplyWorks(s: Session, c: Call) returns (r: Session)
    requires Inv(s)
    ensures Tree(Parents(s.tasks)) && r == Apply(s, c)
    ensures Inv(r) && AllLater(s.tasks, r.tasks)
  {
    assert Tree(Parents(s.tasks));
    hide Spawn, CancelCall, CompleteCall, Pump, Inv;
    match c
    case SpawnTask(parent, asyncRead, deadline, created) =>
      SpawnWorks(s, parent, asyncRead, deadline, created);
      r := Spawn(s, parent, asyncRead, deadline, created).0;
    case CancelTask(id) => r := CancelWorks(s, id);
    case CompleteOp(op, traps, read) =>
      CompleteWorks(s, op, traps, read);
      r := CompleteCall(s, op, traps, read).0;
    case PumpTasks(now, budget, oracle) => r := PumpWorks(s, now, budget, oracle);
  }

  /** Runs a list of calls; every state on the way keeps the invariant. */
  ghost function Run(s: Session, calls: seq<Call>): (r: Session)
    requires Inv(s)
    ensures Inv(r) && AllLater(s.tasks, r.tasks)
    decreases |calls|
  {
    if calls == [] then s
    else
      var m := ApplyFacts(s, calls[0]);
      var r := Run(m, calls[1..]);
      LaterTwice(s.tasks, m.tasks, r.tasks);
      r
  }

  ghost function ApplyFacts(s: Session, c: Call): (r: Session)
    requires Inv(s)
    ensures Tree(Parents(s.tasks)) && r == Apply(s, c) && Inv(r) && AllLater(s.tasks, r.tasks)
  {
    assert Inv(Apply(s, c)) && AllLater(s.tasks, Apply(s, c).tasks) by { var r := ApplyWorks(s, c); }
    Apply(s, c)
  }

  /** A session starts empty, with the given limits and an identity that no earlier one had. */
  lemma CreateWorks(taskLimit: nat, eventLimit: nat, lastSession: nat)
    ensures Create(taskLimit, eventLimit, lastSession).Some? <==>
              taskLimit > 0 && eventLimit > 0 && lastSession != U64_MAX
    ensures Create(taskLimit, eventLimit, lastSession).Some? ==>
              var s := Create(taskLimit, eventLimit, lastSession).value;
              && Inv(s) && s.tasks == [] && s.ring == [] && s.dispatched == [] && s.delivered == []
              && s.capacity == taskLimit && s.ringCapacity == eventLimit && s.identity == lastSession + 1
  {
  }

  // ----- What the invariant means -----

  /** A finished scope has only finished descendants, a completed one only completed
      descendants, and no descendant outlives the deadline of its ancestor. */
  lemma {:induction false} StructuredScopes(s: Session, i: nat, j: nat)
    requires Inv(s) && i < |s.tasks| && j < |s.tasks|
    requires Descendant(Parents(s.tasks), j + 1, i + 1)
    ensures Terminal(s.tasks[i].status) ==> Terminal(s.tasks[j].status)
    ensures s.tasks[i].status.Completed? ==> s.tasks[j].status.Completed?
    ensures s.tasks[j].deadline <= s.tasks[i].deadline
    decreases j
  {
    hide Balanced, RingOk, DeliveredOk, DispatchesOk;
    if j != i {
      assert HasParent(s.tasks, j);
      StructuredScopes(s, i, s.tasks[j].parent - 1);
    }
  }

  /** A live task has no failed child, and a joining task still has a live child. */
  lemma LiveScopes(s: Session, i: nat)
    requires Inv(s) && i < |s.tasks| && !Terminal(s.tasks[i].status)
    ensures forall c :: HasParent(s.tasks, c) && s.tasks[c].parent == i + 1 ==> !Failed(s.tasks[c].status)
    ensures s.tasks[i].status.Joining? ==>
      exists c :: HasParent(s.tasks, c) && s.tasks[c].parent == i + 1 && !Terminal(s.tasks[c].status)
  {
    hide Balanced, RingOk, DeliveredOk, DispatchesOk;
    if s.tasks[i].status.Joining? {
      QuietJoining(s.tasks, i);
    }
    forall c | HasParent(s.tasks, c) && s.tasks[c].parent == i + 1 ensures !Failed(s.tasks[c].status) {
      assert SettledAt(s.tasks, c) && Coherent(s.tasks[i]);
    }
  }

  /** A terminal task keeps its status, outcome and result through any further calls. */
  lemma FinalOutcomes(s: Session, calls: seq<Call>, i: nat)
    requires Inv(s) && i < |s.tasks| && Terminal(s.tasks[i].status)
    ensures i < |Run(s, calls).tasks| && Run(s, calls).tasks[i] == s.tasks[i]
  {
    assert Later(s.tasks[i], Run(s, calls).tasks[i]);
  }

  ghost function WaitingTasks(ts: seq<Task>): set<nat> {
    set i | 0 <= i < |ts| && ts[i].status.Waiting?
  }

  lemma {:induction false} PendingCountIsCardinality(ts: seq<Task>)
    requires forall i :: 0 <= i < |ts| ==> Coherent(ts[i])
    ensures PendingCount(ts) == |WaitingTasks(ts)|
  {
    if ts != [] {
      var n := |ts| - 1;
      PendingCountIsCardinality(ts[..n]);
      assert Coherent(ts[n]);
      assert WaitingTasks(ts) ==
        WaitingTasks(ts[..n]) + if ts[n].status.Waiting? then {n} else {};
    }
  }

  /** The requests registered and not yet released are those of the waiting tasks. */
  lemma RequestsConserved(s: Session)
    requires Inv(s)
    ensures s.registered - s.released == |WaitingTasks(s.tasks)|
    ensures Destroy(s).released == Destroy(s).registered
  {
    PendingCountIsCardinality(s.tasks);
  }

  ghost predicate CarriesOp(s: Session, k: int, op: OpId) {
    0 <= k < |s.ring| && s.ring[k].op == op
  }

  /** The request of a waiting task is in the ring exactly once if it is queued, and not
      at all otherwise; no two entries of the ring carry the same operation. */
  lemma QueuedExactlyOnce(s: Session, i: nat)
    requires Inv(s) && i < |s.tasks| && s.tasks[i].pending
    ensures var op := OpId(TaskId(s.identity, i + 1), s.tasks[i].generation);
            && (s.tasks[i].queued <==> exists k :: CarriesOp(s, k, op))
            && (forall j, k :: CarriesOp(s, j, op) && CarriesOp(s, k, op) ==> j == k)
    ensures forall j, k :: 0 <= j < k < |s.ring| ==> s.ring[j].op != s.ring[k].op
  {
    hide DeliveredOk, DispatchesOk, DeadlinesOk, Balanced;
    var op := OpId(TaskId(s.identity, i + 1), s.tasks[i].generation);
    assert Coherent(s.tasks[i]);
    if s.tasks[i].queued {
      assert InRing(s, i);
      var k :| 0 <= k < |s.ring| && s.ring[k].op == op;
      assert CarriesOp(s, k, op);
    }
    forall k | CarriesOp(s, k, op) ensures s.tasks[i].queued {
      assert EventOk(s, s.ring[k]);
    }
  }

  /** Which completions are refused: delivered, queued, outdated and foreign ones, and those
      of the wrong kind. A refused completion changes nothing. */
  lemma RefusedCompletions(s: Session, op: OpId, traps: bool, read: bool)
    requires Inv(s)
    requires || op in s.delivered
             || (exists k :: CarriesOp(s, k, op))
             || Lookup(s, op.task).None?
             || s.tasks[op.task.slot - 1].generation != op.generation
             || s.tasks[op.task.slot - 1].asyncRead != read
    ensures CompleteCall(s, op, traps, read) == (s, false)
  {
    hide DispatchesOk, DeadlinesOk, Balanced;
    if op in s.delivered {
      var k :| 0 <= k < |s.delivered| && s.delivered[k] == op;
      assert Spent(s, s.delivered[k]);
    } else if k :| CarriesOp(s, k, op) {
      assert EventOk(s, s.ring[k]);
      assert Coherent(s.tasks[op.task.slot - 1]);
    }
  }

  /** No operation is delivered twice in the life of a session. */
  lemma DeliveredOnce(s: Session, calls: seq<Call>)
    requires Inv(s)
    ensures var d := Run(s, calls).delivered;
            forall j, k :: 0 <= j < k < |d| ==> d[j] != d[k]
  {
  }

  // ----- Fairness -----

  /** Steps from the cursor to slot `t`. */
  ghost function Distance(n: nat, cursor: nat, t: nat): nat
    requires cursor < n && t < n
  {
    if t >= cursor then t - cursor else t + n - cursor
  }

  /** A dispatch that passes over a ready task comes closer to it. */
  lemma DispatchApproaches(d: Dispatch, cursor': nat, t: nat)
    requires FairDispatch(d) && FollowedBy(d, cursor')
    requires t < |d.tasks| && d.tasks[t].status.Ready? && d.slot != t
    ensures cursor' < |d.tasks|
    ensures Distance(|d.tasks|, cursor', t) < Distance(|d.tasks|, d.cursor, t)
  {
    var n := |d.tasks|;
    var e := ScanWorks(d.tasks, d.cursor, n);
    var far := Distance(n, d.cursor, t);
    assert Ahead(n, d.cursor, far) == t;
    NextSlot(n, d.slot);
  }

  ghost predicate ReadyThroughout(ds: seq<Dispatch>, a: nat, b: nat, n: nat, t: nat) {
    a <= b <= |ds| && t < n
    && forall k :: a <= k < b ==> |ds[k].tasks| == n && ds[k].tasks[t].status.Ready?
  }

  lemma {:induction false} ServedWithin(s: Session, a: nat, b: nat, n: nat, t: nat) returns (k: nat)
    requires DispatchesOk(s) && ReadyThroughout(s.dispatched, a, b, n, t) && a < b
    requires Distance(n, s.dispatched[a].cursor, t) < b - a
    ensures a <= k < b && s.dispatched[k].slot == t
    decreases b - a
  {
    var d := s.dispatched[a];
    if d.slot == t {
      k := a;
    } else {
      if a + 1 < b {
        assert FollowedBy(s.dispatched[a], s.dispatched[a + 1].cursor);
        DispatchApproaches(d, s.dispatched[a + 1].cursor, t);
        k := ServedWithin(s, a + 1, b, n, t);
      } else {
        DispatchApproaches(d, (d.slot + 1) % n, t);
      }
    }
  }

  /** Round robin: among `n` consecutive dispatches of a session with `n` tasks, every task
      that was ready at each of them was dispatched. */
  lemma RoundRobin(s: Session, a: nat, n: nat, t: nat)
    requires Inv(s) && ReadyThroughout(s.dispatched, a, a + n, n, t)
    ensures exists k :: a <= k < a + n && s.dispatched[k].slot == t
  {
    assert FairDispatch(s.dispatched[a]);
    var k := ServedWithin(s, a, a + n, n, t);
  }
}
