/** What holds after every public call of any run of a task session. */
module TaskRuns {
  import opened TaskModel
  import opened TaskProofs

  // ----- Session invariants -----

  /** Requests are conserved. */
  ghost predicate Balanced(s: Session) {
    s.registered == s.released + PendingCount(s.tasks)
  }

  /** A queued completion belongs to the request its task is waiting on, or to a finished task. */
  ghost predicate EventOk(s: Session, e: Completion) {
    && Lookup(s, e.op.task).Some?
    && var t := s.tasks[e.op.task.slot - 1];
       Terminal(t.status) || (t.queued && t.generation == e.op.generation)
  }

  ghost predicate InRing(s: Session, i: nat)
    requires i < |s.tasks|
  {
    exists k :: 0 <= k < |s.ring|
      && s.ring[k].op == OpId(TaskId(s.identity, i + 1), s.tasks[i].generation)
  }

  ghost predicate RingOk(s: Session) {
    && |s.ring| <= s.ringCapacity
    && (forall k :: 0 <= k < |s.ring| ==> EventOk(s, s.ring[k]))
    && (forall j, k :: 0 <= j < k < |s.ring| ==> s.ring[j].op.task.slot != s.ring[k].op.task.slot)
    && (forall i :: 0 <= i < |s.tasks| && s.tasks[i].queued ==> InRing(s, i))
  }

  /** A delivered operation is never pending again. */
  ghost predicate Spent(s: Session, op: OpId) {
    && Lookup(s, op.task).Some?
    && op.generation <= s.tasks[op.task.slot - 1].generation
    && !PendingOp(s, op)
  }

  ghost predicate DeliveredOk(s: Session) {
    && (forall k :: 0 <= k < |s.delivered| ==> Spent(s, s.delivered[k]))
    && (forall j, k :: 0 <= j < k < |s.delivered| ==> s.delivered[j] != s.delivered[k])
  }

  /** The dispatch took the first ready task at or after its cursor. */
  ghost predicate FairDispatch(d: Dispatch) {
    d.cursor < |d.tasks| && Scan(d.tasks, d.cursor, |d.tasks|).0 == Some(d.slot)
  }

  ghost predicate FollowedBy(d: Dispatch, cursor: nat) {
    0 < |d.tasks| && cursor == (d.slot + 1) % |d.tasks|
  }

  ghost predicate DispatchesOk(s: Session) {
    && (forall k :: 0 <= k < |s.dispatched| ==> FairDispatch(s.dispatched[k]))
    && (forall k :: 0 < k < |s.dispatched| ==> FollowedBy(s.dispatched[k - 1], s.dispatched[k].cursor))
    && (s.dispatched != [] ==> FollowedBy(s.dispatched[|s.dispatched| - 1], s.cursor))
  }

  ghost predicate DeadlinesOk(ts: seq<Task>) {
    forall c :: HasParent(ts, c) ==> ts[c].deadline <= ts[ts[c].parent - 1].deadline
  }

  ghost predicate CursorOk(s: Session) {
    s.cursor == 0 || s.cursor < |s.tasks|
  }

  ghost predicate Core(s: Session) {
    && Quiet(s.tasks) && Balanced(s) && RingOk(s) && DeliveredOk(s)
    && DispatchesOk(s) && DeadlinesOk(s.tasks) && CursorOk(s)
  }

  /** The invariant between public calls. */
  ghost predicate Inv(s: Session) {
    Core(s) && !s.pumping && |s.tasks| <= s.capacity
  }

  // ----- How a task may change -----

  /** A terminal task is final; a request is pending only once per generation. */
  ghost predicate Later(t: Task, t': Task) {
    && (Terminal(t.status) ==> t' == t)
    && t'.parent == t.parent && t'.deadline == t.deadline && t'.asyncRead == t.asyncRead
    && t.generation <= t'.generation
    && (t'.generation == t.generation && t'.pending ==> t.pending)
  }

  ghost predicate AllLater(ts: seq<Task>, ts': seq<Task>) {
    |ts| <= |ts'| && forall i :: 0 <= i < |ts| ==> Later(ts[i], ts'[i])
  }

  /** Unchanged, finished, or a live task without a queued completion that moved on. */
  ghost predicate Step(t: Task, t': Task) {
    && Later(t, t')
    && (|| t' == t
        || (Terminal(t'.status) && !t'.queued)
        || (!Terminal(t.status) && !t.queued && !t'.queued))
  }

  ghost predicate AllStep(ts: seq<Task>, ts': seq<Task>) {
    |ts| == |ts'| && forall i :: 0 <= i < |ts| ==> Step(ts[i], ts'[i])
  }

  // ----- Conservation of requests -----

  lemma {:induction false} PendingCountUpdate(ts: seq<Task>, i: nat, t: Task)
    requires i < |ts|
    ensures PendingCount(ts[i := t]) + (if ts[i].pending then 1 else 0)
         == PendingCount(ts) + (if t.pending then 1 else 0)
  {
    var n := |ts| - 1;
    if i == n {
      assert ts[i := t][..n] == ts[..n];
    } else {
      PendingCountUpdate(ts[..n], i, t);
      assert ts[i := t][..n] == ts[..n][i := t];
    }
  }

  lemma PutKeepsBalanced(s: Session, i: nat, t: Task)
    requires i < |s.tasks| && Balanced(s) && (t.pending ==> s.tasks[i].pending)
    ensures Balanced(Put(s, i, t))
  {
    PendingCountUpdate(s.tasks, i, t);
  }

  lemma JoinKeepsBalanced(s: Session, i: nat)
    requires i < |s.tasks| && Balanced(s)
    ensures Balanced(JoinAt(s, i))
    ensures Parents(JoinAt(s, i).tasks) == Parents(s.tasks)
  {
    PendingCountUpdate(s.tasks, i, s.tasks[i].(status := s.tasks[i].outcome));
  }

  lemma PropagateKeepsBalanced(s: Session, i: nat)
    requires i < |s.tasks| && Tree(Parents(s.tasks)) && Balanced(s)
    ensures Balanced(PropagateAt(s, i))
  {
    hide CancelTasks, PendingCount;
    if s.tasks[i].parent > 0 {
      var p := s.tasks[i].parent - 1;
      PutKeepsBalanced(s, p, Finished(s.tasks[p], Trapped, None));
    }
  }

  lemma SettleAtKeepsBalanced(s: Session, i: nat)
    requires i < |s.tasks| && Tree(Parents(s.tasks)) && Balanced(s)
    ensures Balanced(SettleAt(s, i))
  {
    hide JoinAt, PropagateAt, Balanced;
    JoinKeepsBalanced(s, i);
    assert |Parents(JoinAt(s, i).tasks)| == |s.tasks|;
    PropagateKeepsBalanced(JoinAt(s, i), i);
  }

  lemma {:induction false} SettleKeepsBalanced(s: Session, i: nat)
    requires i <= |s.tasks| && Tree(Parents(s.tasks)) && Balanced(s)
    ensures Balanced(SettleBelow(s, i))
    decreases i
  {
    hide SettleAt;
    if i > 0 {
      SettleAtKeepsBalanced(s, i - 1);
      assert |Parents(SettleAt(s, i - 1).tasks)| == |s.tasks|;
      SettleKeepsBalanced(SettleAt(s, i - 1), i - 1);
    }
  }

  // ----- Transfer: steps of tasks keep the session invariants -----

  lemma RingTransfer(s: Session, s': Session)
    requires RingOk(s) && AllStep(s.tasks, s'.tasks)
    requires s'.ring == s.ring && s'.identity == s.identity && s'.ringCapacity == s.ringCapacity
    ensures RingOk(s')
  {
    forall k | 0 <= k < |s'.ring| ensures EventOk(s', s'.ring[k]) {
      assert EventOk(s, s.ring[k]);
      assert Step(s.tasks[s.ring[k].op.task.slot - 1], s'.tasks[s.ring[k].op.task.slot - 1]);
    }
    forall i | 0 <= i < |s'.tasks| && s'.tasks[i].queued ensures InRing(s', i) {
      assert Step(s.tasks[i], s'.tasks[i]);
      assert InRing(s, i);
    }
  }

  lemma DeliveredTransfer(s: Session, s': Session)
    requires DeliveredOk(s) && AllLater(s.tasks, s'.tasks)
    requires s'.delivered == s.delivered && s'.identity == s.identity
    ensures DeliveredOk(s')
  {
    forall k | 0 <= k < |s'.delivered| ensures Spent(s', s'.delivered[k]) {
      assert Spent(s, s.delivered[k]);
      var i := s.delivered[k].task.slot - 1;
      assert Later(s.tasks[i], s'.tasks[i]);
    }
  }

  lemma DeadlinesTransfer(ts: seq<Task>, ts': seq<Task>)
    requires DeadlinesOk(ts) && |ts| == |ts'| && AllLater(ts, ts')
    ensures DeadlinesOk(ts')
  {
    forall c | HasParent(ts', c) ensures ts'[c].deadline <= ts'[ts'[c].parent - 1].deadline {
      assert Later(ts[c], ts'[c]);
      assert HasParent(ts, c);
      assert Later(ts[ts[c].parent - 1], ts'[ts[c].parent - 1]);
    }
  }

  lemma CoreTransfer(s: Session, s': Session)
    requires Core(s) && AllStep(s.tasks, s'.tasks)
    requires s' == s.(tasks := s'.tasks, registered := s'.registered, released := s'.released)
    requires Quiet(s'.tasks) && Balanced(s')
    ensures Core(s') && AllLater(s.tasks, s'.tasks)
  {
    hide Quiet, Balanced, RingOk, DeliveredOk, DispatchesOk;
    assert AllLater(s.tasks, s'.tasks);
    RingTransfer(s, s');
    DeliveredTransfer(s, s');
    DeadlinesTransfer(s.tasks, s'.tasks);
    assert DispatchesOk(s') by { DispatchTransfer(s, s'); }
  }

  lemma DispatchTransfer(s: Session, s': Session)
    requires DispatchesOk(s) && s'.dispatched == s.dispatched && s'.cursor == s.cursor
    ensures DispatchesOk(s')
  {
    hide Scan;
  }

  lemma {:induction false} LaterTwice(a: seq<Task>, b: seq<Task>, c: seq<Task>)
    requires AllLater(a, b) && AllLater(b, c)
    ensures AllLater(a, c)
  {
    forall i | 0 <= i < |a| ensures Later(a[i], c[i]) {
      assert Later(a[i], b[i]) && Later(b[i], c[i]);
    }
  }

  // ----- Ready and waiting tasks -----

  ghost predicate Unfinished(t: Task) {
    t.status.Ready? || t.status.Waiting?
  }

  lemma ClosedUpdate(ts: seq<Task>, i: nat, t: Task)
    requires Closed(ts) && i < |ts| && Unfinished(ts[i]) && Unfinished(t)
    requires Coherent(t) && t.parent == ts[i].parent
    ensures Closed(ts[i := t])
  {
    var r := ts[i := t];
    assert Parents(r) == Parents(ts);
    forall c | HasParent(r, c) ensures EdgeOk(r[c], r[r[c].parent - 1]) {
      assert HasParent(ts, c);
    }
  }

  /** Moving a task between ready and waiting disturbs nobody. */
  lemma QuietUpdate(ts: seq<Task>, i: nat, t: Task)
    requires Quiet(ts) && i < |ts| && Unfinished(ts[i]) && Unfinished(t)
    requires Coherent(t) && t.parent == ts[i].parent
    ensures Quiet(ts[i := t])
  {
    ClosedUpdate(ts, i, t);
    hide Closed;
    var r := ts[i := t];
    forall k | 0 <= k < |r| ensures SettledAt(r, k) {
      assert SettledAt(ts, k);
      if r[k].status.Joining? {
        var c :| k < c < |ts| && ts[c].parent == k + 1 && !Terminal(ts[c].status);
        assert !Terminal(r[c].status);
      }
    }
  }

  // ----- Ending a body -----

  /** A quiet table has no failed scope left joining, so what evolved has finished. */
  lemma EvolvedQuietSteps(ts: seq<Task>, ts': seq<Task>)
    requires Evolves(ts, ts') && Quiet(ts')
    ensures AllStep(ts, ts')
  {
    forall i | 0 <= i < |ts| ensures Step(ts[i], ts'[i]) {
      assert Evolved(ts[i], ts'[i]);
      if ts'[i].status.Joining? {
        QuietJoining(ts', i);
      }
    }
  }

  /** A quiet task that is joining awaits a child and will complete. */
  lemma QuietJoining(ts: seq<Task>, i: nat)
    requires Quiet(ts) && i < |ts| && ts[i].status.Joining?
    ensures ts[i].outcome.Completed?
    ensures exists c :: HasParent(ts, c) && ts[c].parent == i + 1 && !Terminal(ts[c].status)
  {
    assert SettledAt(ts, i);
    var c :| i < c < |ts| && ts[c].parent == i + 1 && !Terminal(ts[c].status);
    assert HasParent(ts, c);
  }

  lemma CompletedBodyCloses(ts: seq<Task>, i: nat, v: int)
    requires Closed(ts) && i < |ts| && (ts[i].status.Ready? || ts[i].status.Waiting?)
    ensures Closed(ts[i := Finished(ts[i], Completed, Some(v))])
  {
    var f := ts[i := Finished(ts[i], Completed, Some(v))];
    assert Parents(f) == Parents(ts);
    forall c | HasParent(f, c) ensures EdgeOk(f[c], f[f[c].parent - 1]) {
      assert HasParent(ts, c);
    }
  }

  /** The session when the tree starts to settle after a body has ended. */
  lemma BodyEnds(s: Session, i: nat, outcome: Status, result: Option<int>) returns (g: Session)
    requires Closed(s.tasks) && Balanced(s) && i < |s.tasks|
    requires s.tasks[i].status.Ready? || s.tasks[i].status.Waiting?
    requires outcome.Completed? || outcome.Trapped? || outcome.Exited?
    requires outcome.Completed? <==> result.Some?
    ensures Closed(g.tasks) && Balanced(g) && EndBody(s, i, outcome, result) == Settle(g)
    ensures g == s.(tasks := g.tasks, released := g.released) && |g.tasks| == |s.tasks|
    ensures Evolves(s.tasks[i := Finished(s.tasks[i], outcome, result)], g.tasks)
  {
    assert Tree(Parents(s.tasks));
    hide Closed, Settle, Evolves, CancelTasks, Cancel;
    var f := FinishBody(s, i, outcome, result);
    assert f.tasks == s.tasks[i := Finished(s.tasks[i], outcome, result)];
    assert Parents(f.tasks) == Parents(s.tasks);
    PutKeepsBalanced(s, i, Finished(s.tasks[i], outcome, result));
    if outcome.Completed? {
      CompletedBodyCloses(s.tasks, i, result.value);
      EvolvesSelf(f.tasks);
      g := f;
    } else {
      g := Cancel(f, i + 1, false);
      assert g.tasks == CancelTasks(f.tasks, i + 1, false) && Balanced(g) by { CancelKeepsBalanced(f, i + 1, false); }
      FailedBodyClosedBut(s.tasks, i, outcome);
      CancelKeepsClosed(f.tasks, i + 1, false);
    }
  }

  lemma CancelKeepsBalanced(s: Session, root: nat, self: bool)
    requires Tree(Parents(s.tasks)) && Balanced(s)
    ensures Balanced(Cancel(s, root, self))
    ensures Cancel(s, root, self).tasks == CancelTasks(s.tasks, root, self)
  {
  }

  /** Ending a body of a live task leaves the session in order. */
  lemma EndBodyWorks(s: Session, i: nat, outcome: Status, result: Option<int>) returns (r: Session)
    requires Core(s) && i < |s.tasks| && !s.tasks[i].queued
    requires s.tasks[i].status.Ready? || s.tasks[i].status.Waiting?
    requires outcome.Completed? || outcome.Trapped? || outcome.Exited?
    requires outcome.Completed? <==> result.Some?
    ensures r == EndBody(s, i, outcome, result)
    ensures Core(r) && AllLater(s.tasks, r.tasks) && LiveShrinks(s.tasks, r.tasks)
  {
    var f := s.tasks[i := Finished(s.tasks[i], outcome, result)];
    var g := BodyEnds(s, i, outcome, result);
    assert Tree(Parents(g.tasks));
    r := Settled(g);
    EvolvesTwice(f, g.tasks, r.tasks);
    EvolvedQuietSteps(f, r.tasks);
    EndedSteps(s.tasks, i, outcome, result, r.tasks);
    hide Core, Quiet, Balanced, AllStep, AllLater, LiveShrinks, Settle, EndBody;
    CoreTransfer(s, r);
  }

  /** No task becomes live. */
  ghost predicate LiveShrinks(ts: seq<Task>, ts': seq<Task>) {
    |ts| == |ts'| && forall i :: 0 <= i < |ts| && !Terminal(ts'[i].status) ==> !Terminal(ts[i].status)
  }

  lemma EndedSteps(ts: seq<Task>, i: nat, outcome: Status, result: Option<int>, r: seq<Task>)
    requires i < |ts| && !Terminal(ts[i].status) && !ts[i].queued
    requires AllStep(ts[i := Finished(ts[i], outcome, result)], r)
    ensures AllStep(ts, r) && LiveShrinks(ts, r)
  {
    var f := ts[i := Finished(ts[i], outcome, result)];
    forall k | 0 <= k < |ts|
      ensures Step(ts[k], r[k]) && (!Terminal(r[k].status) ==> !Terminal(ts[k].status))
    {
      assert Step(f[k], r[k]);
    }
  }

  lemma Settled(g: Session) returns (r: Session)
    requires Closed(g.tasks) && Balanced(g)
    ensures r == Settle(g) && Quiet(r.tasks) && Balanced(r) && Evolves(g.tasks, r.tasks)
  {
    r := SettleWorks(g, |g.tasks|);
    SettleKeepsBalanced(g, |g.tasks|);
  }

  // ----- Delivering completions -----

  lemma StaleDropped(s: Session)
    requires Core(s) && s.ring != [] && !PendingOp(s, s.ring[0].op)
    ensures RingOk(s.(ring := s.ring[1..]))
  {
    var r := s.(ring := s.ring[1..]);
    forall k | 0 <= k < |r.ring| ensures EventOk(r, r.ring[k]) {
      assert EventOk(s, s.ring[k + 1]);
    }
    forall i | 0 <= i < |r.tasks| && r.tasks[i].queued ensures InRing(r, i) {
      assert InRing(s, i) && Coherent(s.tasks[i]);
      var k :| 0 <= k < |s.ring| && s.ring[k].op == OpId(TaskId(s.identity, i + 1), s.tasks[i].generation);
      assert k > 0;
      assert r.ring[k - 1] == s.ring[k];
    }
  }

  /** Taking a live completion off the ring and resuming its task. */
  ghost function Resumed(s: Session): Session
    requires s.ring != [] && PendingOp(s, s.ring[0].op)
  {
    var op := s.ring[0].op;
    Resume(s.(ring := s.ring[1..]), op.task.slot - 1).(delivered := s.delivered + [op])
  }

  lemma ResumedRing(s: Session)
    requires Core(s) && s.ring != [] && PendingOp(s, s.ring[0].op)
    ensures RingOk(Resumed(s))
  {
    var r, j := Resumed(s), s.ring[0].op.task.slot - 1;
    forall k | 0 <= k < |r.ring| ensures EventOk(r, r.ring[k]) {
      assert EventOk(s, s.ring[k + 1]);
      assert s.ring[0].op.task.slot != s.ring[k + 1].op.task.slot;
    }
    forall i | 0 <= i < |r.tasks| && r.tasks[i].queued ensures InRing(r, i) {
      assert InRing(s, i);
      var k :| 0 <= k < |s.ring| && s.ring[k].op == OpId(TaskId(s.identity, i + 1), s.tasks[i].generation);
      assert k > 0;
      assert r.ring[k - 1] == s.ring[k];
    }
  }

  lemma ResumedQuiet(s: Session)
    requires Core(s) && s.ring != [] && PendingOp(s, s.ring[0].op)
    ensures Quiet(Resumed(s).tasks) && AllLater(s.tasks, Resumed(s).tasks)
    ensures LiveShrinks(s.tasks, Resumed(s).tasks)
  {
    hide RingOk, DeliveredOk, DispatchesOk, DeadlinesOk, Balanced;
    var j := s.ring[0].op.task.slot - 1;
    assert Coherent(s.tasks[j]);
    QuietUpdate(s.tasks, j, s.tasks[j].(pending := false, queued := false, status := Ready));
  }

  lemma ResumedDelivered(s: Session)
    requires Core(s) && s.ring != [] && PendingOp(s, s.ring[0].op)
    ensures DeliveredOk(Resumed(s))
  {
    hide RingOk, DispatchesOk, DeadlinesOk, Balanced, Quiet;
    var r, op := Resumed(s), s.ring[0].op;
    forall k | 0 <= k < |r.delivered|
      ensures Spent(r, r.delivered[k])
      ensures k < |s.delivered| ==> r.delivered[k] != op
    {
      assert k < |s.delivered| ==> Spent(s, s.delivered[k]);
    }
  }

  lemma ResumedWorks(s: Session)
    requires Core(s) && s.ring != [] && PendingOp(s, s.ring[0].op)
    ensures Core(Resumed(s)) && AllLater(s.tasks, Resumed(s).tasks)
    ensures LiveShrinks(s.tasks, Resumed(s).tasks)
  {
    hide RingOk, Quiet, DeliveredOk, AllLater, LiveShrinks, DeadlinesOk, DispatchesOk;
    ResumedRing(s);
    ResumedQuiet(s);
    ResumedDelivered(s);
    DeadlinesResumed(s);
    var j := s.ring[0].op.task.slot - 1;
    PutKeepsBalanced(s, j, s.tasks[j].(pending := false, queued := false, status := Ready));
    DispatchTransfer(s, Resumed(s));
  }

  lemma DeadlinesResumed(s: Session)
    requires Core(s) && s.ring != [] && PendingOp(s, s.ring[0].op)
    ensures DeadlinesOk(Resumed(s).tasks)
  {
    ResumedQuiet(s);
    DeadlinesTransfer(s.tasks, Resumed(s).tasks);
  }

  lemma LiveShrinksTwice(a: seq<Task>, b: seq<Task>, c: seq<Task>)
    requires LiveShrinks(a, b) && LiveShrinks(b, c)
    ensures LiveShrinks(a, c)
  {
  }

  lemma DeliverOneWorks(s: Session) returns (r: Session)
    requires Core(s) && s.ring != []
    ensures r == DeliverOne(s) && Core(r) && |r.tasks| == |s.tasks|
    ensures AllLater(s.tasks, r.tasks) && LiveShrinks(s.tasks, r.tasks)
  {
    var op := s.ring[0].op;
    if !PendingOp(s, op) {
      StaleDropped(s);
      r := s.(ring := s.ring[1..]);
      DispatchTransfer(s, r);
      assert DeliveredOk(r) by { DeliveredTransfer(s, r); }
    } else {
      var m := Resumed(s);
      ResumedWorks(s);
      if s.ring[0].traps {
        r := EndBodyWorks(m, op.task.slot - 1, Trapped, None);
        LaterTwice(s.tasks, m.tasks, r.tasks);
        LiveShrinksTwice(s.tasks, m.tasks, r.tasks);
      } else {
        r := m;
      }
    }
  }

  lemma {:induction false} DeliverWorks(s: Session) returns (r: Session)
    requires Core(s)
    ensures r == Deliver(s) && Core(r) && |r.tasks| == |s.tasks| && r.ring == []
    ensures AllLater(s.tasks, r.tasks) && LiveShrinks(s.tasks, r.tasks)
    decreases |s.ring|
  {
    hide DeliverOne;
    if s.ring == [] {
      r := s;
    } else {
      var m := DeliverOneWorks(s);
      r := DeliverWorks(m);
      LaterTwice(s.tasks, m.tasks, r.tasks);
      LiveShrinksTwice(s.tasks, m.tasks, r.tasks);
    }
  }

  // ----- Deadlines -----

  ghost predicate NoneExpired(ts: seq<Task>, now: nat) {
    forall k :: 0 <= k < |ts| ==> !Expired(ts[k], now)
  }

  lemma ExpireAt(s: Session, i: nat) returns (m: Session)
    requires i < |s.tasks| && Closed(s.tasks) && Balanced(s) && NoneExpired(s.tasks[..i], s.now)
    ensures Closed(m.tasks) && Balanced(m) && Evolves(s.tasks, m.tasks)
    ensures NoneExpired(m.tasks[..i + 1], s.now)
    ensures ExpireFrom(s, i) == ExpireFrom(m, i + 1)
    ensures m == s.(tasks := m.tasks, released := m.released)
  {
    if Expired(s.tasks[i], s.now) {
      m := Cancel(s, i + 1, true);
      assert |Parents(m.tasks)| == |s.tasks|;
      CancelKeepsBalanced(s, i + 1, true);
      CancelKeepsClosed(s.tasks, i + 1, true);
      forall k | 0 <= k <= i ensures !Expired(m.tasks[k], s.now) {
        assert k < i ==> !Expired(s.tasks[..i][k], s.now);
        assert Evolved(s.tasks[k], m.tasks[k]);
      }
    } else {
      m := s;
      EvolvesSelf(s.tasks);
      forall k | 0 <= k <= i ensures !Expired(m.tasks[k], s.now) {
        assert k < i ==> !Expired(s.tasks[..i][k], s.now);
      }
    }
  }

  lemma {:induction false} ExpireWorks(s: Session, i: nat) returns (r: Session)
    requires i <= |s.tasks| && Closed(s.tasks) && Balanced(s) && NoneExpired(s.tasks[..i], s.now)
    ensures r == ExpireFrom(s, i) && Closed(r.tasks) && Balanced(r) && Evolves(s.tasks, r.tasks)
    ensures NoneExpired(r.tasks, s.now)
    decreases |s.tasks| - i
  {
    hide Cancel;
    if i == |s.tasks| {
      r := s;
      assert s.tasks[..i] == s.tasks;
    } else {
      var m := ExpireAt(s, i);
      r := ExpireWorks(m, i + 1);
      EvolvesTwice(s.tasks, m.tasks, r.tasks);
    }
  }

  lemma EvolvedLive(ts: seq<Task>, ts': seq<Task>, now: nat)
    requires Evolves(ts, ts')
    ensures LiveShrinks(ts, ts') && (NoneExpired(ts, now) ==> NoneExpired(ts', now))
  {
    forall i | 0 <= i < |ts|
      ensures !Terminal(ts'[i].status) ==> !Terminal(ts[i].status)
      ensures Expired(ts'[i], now) ==> Expired(ts[i], now)
    {
      assert Evolved(ts[i], ts'[i]);
    }
  }

  /** Completions, deadlines and settling leave no expired task alive. */
  lemma PrepareWorks(s: Session, now: nat) returns (r: Session)
    requires Core(s)
    ensures r == Prepare(s, now) && Core(r) && NoneExpired(r.tasks, now)
    ensures |r.tasks| == |s.tasks| && AllLater(s.tasks, r.tasks)
    ensures r.now == now
  {
    hide Core, Quiet, Closed, Balanced, AllStep, AllLater, LiveShrinks, Settle, ExpireFrom, Deliver, Evolves;
    var s0 := s.(pumping := true, now := now);
    assert Core(s0) by { ClockKeepsCore(s, s0); }
    var m := DeliverWorks(s0);
    CoreClosed(m);
    var e := ExpireWorks(m, 0);
    r := Settled(e);
    EvolvedLive(e.tasks, r.tasks, now);
    EvolvesTwice(m.tasks, e.tasks, r.tasks);
    EvolvedQuietSteps(m.tasks, r.tasks);
    CoreTransfer(m, r);
    LaterTwice(s.tasks, m.tasks, r.tasks);
  }

  lemma CoreClosed(s: Session)
    requires Core(s)
    ensures Closed(s.tasks) && Balanced(s)
  {
  }

  lemma ClockKeepsCore(s: Session, s': Session)
    requires Core(s) && s' == s.(pumping := s'.pumping, now := s'.now)
    ensures Core(s')
  {
    RingTransfer(s, s');
    DeliveredTransfer(s, s');
    DispatchTransfer(s, s');
  }

  // ----- Dispatch -----

  /** The slot that is `d` steps after the cursor, wrapping around at `n`. */
  function Ahead(n: nat, cursor: nat, d: nat): (slot: nat)
    requires cursor < n && d <= n
    ensures slot < n
  {
    if cursor + d < n then cursor + d else cursor + d - n
  }

  lemma NextSlot(n: nat, cursor: nat)
    requires cursor < n
    ensures (cursor + 1) % n == if cursor + 1 == n then 0 else cursor + 1
  {
  }

  /** A scan finds the first ready slot from the cursor and parks the cursor behind it;
      a scan that finds nothing moves the cursor by the slots it looked at. */
  lemma {:induction false} ScanWorks(ts: seq<Task>, cursor: nat, left: nat) returns (d: nat)
    requires cursor < |ts| && left <= |ts|
    ensures var (found, cursor') := Scan(ts, cursor, left);
            && d <= left
            && (forall e :: 0 <= e < d ==> !ts[Ahead(|ts|, cursor, e)].status.Ready?)
            && (match found
                case None => d == left && cursor' == Ahead(|ts|, cursor, left)
                case Some(slot) =>
                  && d < left && slot == Ahead(|ts|, cursor, d) && ts[slot].status.Ready?
                  && cursor' == (slot + 1) % |ts|)
    decreases left
  {
    if left == 0 || ts[cursor].status.Ready? {
      d := 0;
    } else {
      NextSlot(|ts|, cursor);
      var next := (cursor + 1) % |ts|;
      d := ScanWorks(ts, next, left - 1);
      forall e | 0 <= e <= d ensures !ts[Ahead(|ts|, cursor, e)].status.Ready? {
        assert e > 0 ==> Ahead(|ts|, cursor, e) == Ahead(|ts|, next, e - 1);
      }
      d := d + 1;
    }
  }

  lemma ScanFull(ts: seq<Task>, cursor: nat)
    requires cursor < |ts|
    ensures var (found, cursor') := Scan(ts, cursor, |ts|);
            match found
            case None => cursor' == cursor
            case Some(slot) => ts[slot].status.Ready? && cursor' == (slot + 1) % |ts|
  {
    var d := ScanWorks(ts, cursor, |ts|);
  }

  lemma DispatchedKeepsCore(s: Session, answer: Outcome)
    requires Core(s) && s.tasks != []
    requires Scan(s.tasks, s.cursor, |s.tasks|).0.Some?
    ensures var (found, cursor') := Scan(s.tasks, s.cursor, |s.tasks|);
            Core(Dispatched(s, found.value, cursor', answer)) && s.tasks[found.value].status.Ready?
  {
    var (found, cursor') := Scan(s.tasks, s.cursor, |s.tasks|);
    var r := Dispatched(s, found.value, cursor', answer);
    ScanFull(s.tasks, s.cursor);
    hide Quiet, Scan;
    RingTransfer(s, r);
    DeliveredTransfer(s, r);
    assert FairDispatch(r.dispatched[|s.dispatched|]);
    assert DispatchesOk(r);
  }

  /** A ready task that registers a request waits for it. */
  lemma RegisterWorks(s: Session, i: nat)
    requires Core(s) && i < |s.tasks| && s.tasks[i].status.Ready? && CanRegister(s, s.tasks[i])
    ensures Core(Advance(s, i, Wait)) && AllLater(s.tasks, Advance(s, i, Wait).tasks)
    ensures LiveShrinks(s.tasks, Advance(s, i, Wait).tasks)
  {
    var r, t := Advance(s, i, Wait), s.tasks[i];
    var t' := t.(generation := t.generation + 1, pending := true, status := Waiting);
    assert Coherent(t);
    QuietUpdate(s.tasks, i, t');
    PendingCountUpdate(s.tasks, i, t');
    hide Core, Quiet, DispatchesOk, RingOk, DeliveredOk;
    CoreTransfer(s, r);
  }

  lemma AdvanceWorks(s: Session, i: nat, o: Outcome) returns (r: Session)
    requires Core(s) && i < |s.tasks| && s.tasks[i].status.Ready?
    ensures r == Advance(s, i, o) && Core(r) && |r.tasks| == |s.tasks|
    ensures AllLater(s.tasks, r.tasks) && LiveShrinks(s.tasks, r.tasks)
  {
    assert Coherent(s.tasks[i]) && Tree(Parents(s.tasks));
    hide Core, EndBody;
    match o
    case Yield => r := s;
    case Wait =>
      if CanRegister(s, s.tasks[i]) {
        RegisterWorks(s, i);
        r := Advance(s, i, o);
      } else {
        r := EndBodyWorks(s, i, Trapped, None);
      }
    case Complete(v) => r := EndBodyWorks(s, i, Completed, Some(v));
    case Trap => r := EndBodyWorks(s, i, Trapped, None);
    case Exit => r := EndBodyWorks(s, i, Exited, None);
  }
}
