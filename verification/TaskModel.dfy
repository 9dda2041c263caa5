/** The task session of src/vm/tasks.c as functions on values: one `Session` value per
    state, one function per operation. TaskSession.dfy proves the loops of the source
    against these functions, TaskProofs.dfy and TaskRuns.dfy prove what they guarantee. */
module TaskModel {

  const U64_MAX: nat := 0xFFFF_FFFF_FFFF_FFFF
  const SIZE_MAX: nat := 0xFFFF_FFFF_FFFF_FFFF

  datatype Option<+T> = None | Some(value: T)

  datatype Status =
    | Invalid | Ready | Waiting | Joining
    | Completed | Trapped | Exited | Cancelled

  predicate Terminal(s: Status) {
    s.Completed? || s.Trapped? || s.Exited? || s.Cancelled?
  }

  /** A terminal status other than Completed. */
  predicate Failed(s: Status) {
    s.Trapped? || s.Exited? || s.Cancelled?
  }

  /** `parent` is the slot (index + 1) of the parent, 0 for a root; `result` stands for
      the retained result value. */
  datatype Task = Task(
    parent: nat, deadline: nat, generation: nat,
    status: Status, outcome: Status, result: Option<int>,
    asyncRead: bool, pending: bool, queued: bool)

  datatype TaskId = TaskId(session: nat, slot: nat)
  datatype OpId = OpId(task: TaskId, generation: nat)

  /** `traps` says whether delivering the payload traps the execution. */
  datatype Completion = Completion(op: OpId, traps: bool)

  /** What one dispatched instruction of a task does. */
  datatype Outcome = Yield | Wait | Complete(value: int) | Trap | Exit

  /** A dispatch as seen by the scheduler: the tasks, the cursor and the requests registered
      before it, the slot taken, and what the dispatched instruction did. */
  datatype Dispatch = Dispatch(tasks: seq<Task>, cursor: nat, registered: nat, slot: nat, answer: Outcome)

  /** `dispatched` and `delivered` record the history of the session; no operation reads them. */
  datatype Session = Session(
    tasks: seq<Task>, ring: seq<Completion>, capacity: nat, ringCapacity: nat,
    cursor: nat, identity: nat, now: nat, registered: nat, released: nat, pumping: bool,
    dispatched: seq<Dispatch>, delivered: seq<OpId>)

  // ----- The parent tree -----

  function Parents(ts: seq<Task>): (ps: seq<nat>)
    ensures |ps| == |ts| && forall i :: 0 <= i < |ts| ==> ps[i] == ts[i].parent
  {
    seq(|ts|, i requires 0 <= i < |ts| => ts[i].parent)
  }

  /** A parent's slot precedes its child's slot. */
  predicate Tree(ps: seq<nat>) {
    forall i :: 0 <= i < |ps| ==> ps[i] <= i
  }

  /** `descendant`: is `root` on the parent chain that starts at `slot`? */
  predicate Descendant(ps: seq<nat>, slot: nat, root: nat)
    requires Tree(ps) && slot <= |ps|
    decreases slot
  {
    if slot == 0 || slot == root then slot == root
    else Descendant(ps, ps[slot - 1], root)
  }

  /** `r` differs from `s` at most in the state of the tasks and the released count. */
  predicate SameTree(s: Session, r: Session) {
    Parents(r.tasks) == Parents(s.tasks) && r == s.(tasks := r.tasks, released := r.released)
  }

  // ----- Bodies, requests, cancellation -----

  function PendingCount(ts: seq<Task>): nat {
    if ts == [] then 0
    else PendingCount(ts[..|ts| - 1]) + if ts[|ts| - 1].pending then 1 else 0
  }

  /** The task record that `finish_body` leaves. */
  function Finished(t: Task, outcome: Status, result: Option<int>): Task {
    t.(result := if outcome.Completed? then result else None,
       pending := false, queued := false, outcome := outcome, status := Joining)
  }

  /** Installs a task record; a request it no longer holds counts as released. */
  function Put(s: Session, i: nat, t: Task): Session
    requires i < |s.tasks|
  {
    s.(tasks := s.tasks[i := t],
       released := s.released + if s.tasks[i].pending && !t.pending then 1 else 0)
  }

  function FinishBody(s: Session, i: nat, outcome: Status, result: Option<int>): Session
    requires i < |s.tasks|
  {
    Put(s, i, Finished(s.tasks[i], outcome, result))
  }

  function CancelledTask(t: Task): Task {
    Finished(t, Cancelled, None).(status := Cancelled)
  }

  /** Is task `i` torn down when the tree at `root` is? `self` says whether `root` itself is. */
  predicate Doomed(ts: seq<Task>, i: nat, root: nat, self: bool)
    requires Tree(Parents(ts)) && i < |ts|
  {
    !Terminal(ts[i].status) && (self || i + 1 != root) && Descendant(Parents(ts), i + 1, root)
  }

  function CancelTasks(ts: seq<Task>, root: nat, self: bool): (r: seq<Task>)
    requires Tree(Parents(ts))
  {
    seq(|ts|, i requires 0 <= i < |ts| =>
      if Doomed(ts, i, root, self) then CancelledTask(ts[i]) else ts[i])
  }

  lemma PendingCountMonotone(ts: seq<Task>, ts': seq<Task>)
    requires |ts| == |ts'|
    requires forall i :: 0 <= i < |ts| && ts'[i].pending ==> ts[i].pending
    ensures PendingCount(ts') <= PendingCount(ts)
  {
    if ts != [] {
      PendingCountMonotone(ts[..|ts| - 1], ts'[..|ts| - 1]);
    }
  }

  /** `cancel_tree` (self) and `cancel_children` (not self). */
  function Cancel(s: Session, root: nat, self: bool): (r: Session)
    requires Tree(Parents(s.tasks))
    ensures SameTree(s, r)
  {
    var ts := CancelTasks(s.tasks, root, self);
    PendingCountMonotone(s.tasks, ts);
    s.(tasks := ts, released := s.released + (PendingCount(s.tasks) - PendingCount(ts)))
  }

  // ----- Settling: one reverse traversal joins scopes and propagates failure -----

  /** Every child of task `i` is terminal. */
  predicate Joined(ts: seq<Task>, i: nat) {
    forall c :: i < c < |ts| && ts[c].parent == i + 1 ==> Terminal(ts[c].status)
  }

  function JoinAt(s: Session, i: nat): Session
    requires i < |s.tasks|
  {
    if s.tasks[i].status.Joining? && Joined(s.tasks, i) then
      s.(tasks := s.tasks[i := s.tasks[i].(status := s.tasks[i].outcome)])
    else s
  }

  /** A failed task fails its live parent and cancels the parent's other children. */
  function PropagateAt(s: Session, i: nat): (r: Session)
    requires i < |s.tasks| && Tree(Parents(s.tasks))
    ensures SameTree(s, r)
  {
    var t := s.tasks[i];
    if Terminal(t.status) && !t.status.Completed? && t.parent > 0 then
      var p := s.tasks[t.parent - 1];
      if !Terminal(p.status) && !p.outcome.Trapped? && !p.outcome.Exited? then
        var f := FinishBody(s, t.parent - 1, Trapped, None);
        assert Parents(f.tasks) == Parents(s.tasks);
        Cancel(f, t.parent, false)
      else s
    else s
  }

  function SettleAt(s: Session, i: nat): (r: Session)
    requires i < |s.tasks| && Tree(Parents(s.tasks))
    ensures SameTree(s, r)
  {
    assert Parents(JoinAt(s, i).tasks) == Parents(s.tasks);
    PropagateAt(JoinAt(s, i), i)
  }

  /** Settles the tasks below index `i`, highest first. */
  function SettleBelow(s: Session, i: nat): (r: Session)
    requires i <= |s.tasks| && Tree(Parents(s.tasks))
    ensures SameTree(s, r)
    decreases i
  {
    if i == 0 then s else
      var s' := SettleAt(s, i - 1);
      assert |Parents(s'.tasks)| == |s'.tasks|;
      SettleBelow(s', i - 1)
  }

  function Settle(s: Session): (r: Session)
    requires Tree(Parents(s.tasks))
    ensures SameTree(s, r)
  {
    SettleBelow(s, |s.tasks|)
  }

  /** Ends a body: a failed one takes its children with it, then the tree settles. */
  function EndBody(s: Session, i: nat, outcome: Status, result: Option<int>): (r: Session)
    requires i < |s.tasks| && Tree(Parents(s.tasks))
    ensures SameTree(s, r)
  {
    var f := FinishBody(s, i, outcome, result);
    assert Parents(f.tasks) == Parents(s.tasks);
    Settle(if outcome.Completed? then f else Cancel(f, i + 1, false))
  }

  // ----- Completions -----

  /** `lookup`: the index of a task of this session. */
  function Lookup(s: Session, id: TaskId): Option<nat> {
    if id.session != s.identity || id.slot == 0 || id.slot > |s.tasks| then None
    else Some(id.slot - 1)
  }

  /** Does the operation name a request that is still pending? */
  predicate PendingOp(s: Session, op: OpId) {
    var i := Lookup(s, op.task);
    i.Some? && s.tasks[i.value].pending && s.tasks[i.value].generation == op.generation
  }

  predicate Accepts(s: Session, op: OpId, read: bool) {
    PendingOp(s, op) && !s.pumping
    && s.tasks[op.task.slot - 1].asyncRead == read
    && !s.tasks[op.task.slot - 1].queued
    && |s.ring| != s.ringCapacity
  }

  /** `vm_tasks_complete` and `vm_tasks_complete_read`. */
  function CompleteCall(s: Session, op: OpId, traps: bool, read: bool): (Session, bool) {
    if Accepts(s, op, read) then
      var i := op.task.slot - 1;
      (s.(tasks := s.tasks[i := s.tasks[i].(queued := true)],
          ring := s.ring + [Completion(op, traps)]), true)
    else (s, false)
  }

  /** Releases the request of a waiting task and makes it ready. */
  function Resume(s: Session, i: nat): (r: Session)
    requires i < |s.tasks|
    ensures SameTree(s, r)
  {
    Put(s, i, s.tasks[i].(pending := false, queued := false, status := Ready))
  }

  /** Delivers a completion that was taken off the ring, unless it is stale. */
  function DeliverEvent(s: Session, e: Completion): (r: Session)
    requires Tree(Parents(s.tasks))
    ensures SameTree(s.(delivered := r.delivered), r)
  {
    if !PendingOp(s, e.op) then s
    else
      var i := e.op.task.slot - 1;
      var s' := Resume(s, i).(delivered := s.delivered + [e.op]);
      if e.traps then EndBody(s', i, Trapped, None) else s'
  }

  function DeliverOne(s: Session): (r: Session)
    requires s.ring != [] && Tree(Parents(s.tasks))
    ensures SameTree(s.(ring := s.ring[1..], delivered := r.delivered), r)
  {
    DeliverEvent(s.(ring := s.ring[1..]), s.ring[0])
  }

  function Deliver(s: Session): (r: Session)
    requires Tree(Parents(s.tasks))
    ensures SameTree(s.(ring := [], delivered := r.delivered), r)
    decreases |s.ring|
  {
    if s.ring == [] then s else Deliver(DeliverOne(s))
  }

  // ----- Pumping -----

  predicate Expired(t: Task, now: nat) {
    !Terminal(t.status) && t.deadline != U64_MAX && t.deadline <= now
  }

  /** Cancels expired trees from index `i` upwards. */
  function ExpireFrom(s: Session, i: nat): (r: Session)
    requires i <= |s.tasks| && Tree(Parents(s.tasks))
    ensures SameTree(s, r)
    decreases |s.tasks| - i
  {
    if i == |s.tasks| then s else
      var s' := if Expired(s.tasks[i], s.now) then Cancel(s, i + 1, true) else s;
      assert |Parents(s'.tasks)| == |s.tasks|;
      ExpireFrom(s', i + 1)
  }

  /** Looks at up to `left` slots from the cursor; returns the first ready one and the new cursor. */
  function Scan(ts: seq<Task>, cursor: nat, left: nat): (r: (Option<nat>, nat))
    requires cursor < |ts|
    ensures r.1 < |ts| && (r.0.Some? ==> r.0.value < |ts|)
    decreases left
  {
    if left == 0 then (None, cursor)
    else
      var next := (cursor + 1) % |ts|;
      if ts[cursor].status.Ready? then (Some(cursor), next) else Scan(ts, next, left - 1)
  }

  predicate CanRegister(s: Session, t: Task) {
    !t.pending && t.generation != U64_MAX && s.registered != SIZE_MAX
  }

  /** One dispatched instruction of task `i`; a refused registration traps. */
  function Advance(s: Session, i: nat, o: Outcome): (r: Session)
    requires i < |s.tasks| && Tree(Parents(s.tasks))
    ensures SameTree(s.(registered := r.registered), r)
  {
    var t := s.tasks[i];
    match o
    case Yield => s
    case Wait =>
      if CanRegister(s, t) then
        var t' := t.(generation := t.generation + 1, pending := true, status := Waiting);
        s.(tasks := s.tasks[i := t'], registered := s.registered + 1)
      else EndBody(s, i, Trapped, None)
    case Complete(v) => EndBody(s, i, Completed, Some(v))
    case Trap => EndBody(s, i, Trapped, None)
    case Exit => EndBody(s, i, Exited, None)
  }

  /** Round-robin dispatch; `oracle(n)` is what the n-th dispatch of the session does. */
  function DispatchLoop(s: Session, budget: nat, oracle: nat -> Outcome): (r: Session)
    requires Tree(Parents(s.tasks))
    requires s.tasks != [] ==> s.cursor < |s.tasks|
    ensures SameTree(s.(registered := r.registered, cursor := r.cursor, dispatched := r.dispatched), r)
    decreases budget
  {
    if budget == 0 || s.tasks == [] then s else
      var (found, cursor') := Scan(s.tasks, s.cursor, |s.tasks|);
      match found
      case None => s.(cursor := cursor')
      case Some(slot) =>
        var answer := oracle(|s.dispatched|);
        var s' := Advance(Dispatched(s, slot, cursor', answer), slot, answer);
        assert |Parents(s'.tasks)| == |s.tasks|;
        DispatchLoop(s', budget - 1, oracle)
  }

  function Dispatched(s: Session, slot: nat, cursor': nat, answer: Outcome): Session {
    s.(cursor := cursor',
       dispatched := s.dispatched + [Dispatch(s.tasks, s.cursor, s.registered, slot, answer)])
  }

  // ----- The public calls -----

  /** `vm_tasks_create`: a session needs room for a task and for a completion. */
  function Create(taskLimit: nat, eventLimit: nat, lastSession: nat): Option<Session> {
    if taskLimit == 0 || eventLimit == 0 || lastSession == U64_MAX then None
    else Some(Session([], [], taskLimit, eventLimit, 0, lastSession + 1, 0, 0, 0, false, [], []))
  }

  predicate Admits(s: Session, parent: TaskId) {
    && !s.pumping
    && |s.tasks| != s.capacity
    && (parent == TaskId(0, 0)
        || (Lookup(s, parent).Some?
            && var p := s.tasks[parent.slot - 1].status; p.Ready? || p.Waiting?))
  }

  /** `vm_tasks_spawn`; `created` says whether the execution could be created. */
  function Spawn(s: Session, parent: TaskId, asyncRead: bool, deadline: nat, created: bool)
    : (Session, TaskId)
  {
    if !Admits(s, parent) || !created then (s, TaskId(0, 0))
    else
      var p := Lookup(s, parent);
      var d := if p.Some? && s.tasks[p.value].deadline < deadline
               then s.tasks[p.value].deadline else deadline;
      (s.(tasks := s.tasks + [Task(parent.slot, d, 0, Ready, Invalid, None, asyncRead, false, false)]),
       TaskId(s.identity, |s.tasks| + 1))
  }

  /** `vm_tasks_cancel` */
  function CancelCall(s: Session, id: TaskId): (Session, bool)
    requires Tree(Parents(s.tasks))
  {
    if Lookup(s, id).None? || s.pumping then (s, false)
    else (Settle(Cancel(s, id.slot, true)), true)
  }

  /** The part of a pump before dispatch: completions, then deadlines, then settling. */
  function Prepare(s: Session, now: nat): (r: Session)
    requires Tree(Parents(s.tasks))
    ensures SameTree(s.(ring := [], delivered := r.delivered, pumping := true, now := now), r)
  {
    Settle(ExpireFrom(Deliver(s.(pumping := true, now := now)), 0))
  }

  /** `vm_tasks_pump` */
  function Pump(s: Session, now: nat, budget: nat, oracle: nat -> Outcome): (Session, bool)
    requires Tree(Parents(s.tasks)) && (s.tasks != [] ==> s.cursor < |s.tasks|)
  {
    if s.pumping || now < s.now then (s, false)
    else
      assert |Parents(Prepare(s, now).tasks)| == |s.tasks|;
      (DispatchLoop(Prepare(s, now), budget, oracle).(pumping := false), true)
  }

  /** `vm_tasks_destroy`: what the session's counters read once every request is released. */
  function Destroy(s: Session): Session {
    s.(released := s.released + PendingCount(s.tasks), ring := [],
       tasks := seq(|s.tasks|, i requires 0 <= i < |s.tasks| =>
         s.tasks[i].(pending := false, queued := false, result := None)))
  }
}
