/** What each public call does to every task, stated on the task table alone: a dispatch, a
    cancellation, a delivery, an admission and a completion call. */
module TaskEffects {
  import opened TaskModel
  import opened TaskProofs
  import opened TaskRuns
  import opened TaskStrike

  // ----- One dispatch -----

  /** The table `r` is what dispatch `d` made of the table it found. */
  ghost predicate Took(d: Dispatch, r: seq<Task>) {
    && Tree(Parents(d.tasks)) && d.slot < |d.tasks|
    && match d.answer
       case Yield => r == d.tasks
       case Wait =>
         var t := d.tasks[d.slot];
         if t.generation == U64_MAX || d.registered == SIZE_MAX then Strikes(d.tasks, d.slot, Trapped, r)
         else r == d.tasks[d.slot := t.(status := Waiting, generation := t.generation + 1, pending := true)]
       case Complete(v) => Rises(d.tasks, d.slot, v, r)
       case Trap => Strikes(d.tasks, d.slot, Trapped, r)
       case Exit => Strikes(d.tasks, d.slot, Exited, r)
  }

  lemma AdvanceTakes(s: Session, i: nat, o: Outcome, cursor: nat)
    requires Quiet(s.tasks) && i < |s.tasks| && s.tasks[i].status.Ready?
    ensures Tree(Parents(s.tasks)) && Took(Dispatch(s.tasks, cursor, s.registered, i, o), Advance(s, i, o).tasks)
  {
    assert Coherent(s.tasks[i]);
    hide Quiet, EndBody, Strikes, Rises;
    QuietTree(s.tasks);
    match o
    case Yield =>
    case Wait =>
      if !CanRegister(s, s.tasks[i]) {
        FailureStrikes(s, i, Trapped);
      }
    case Complete(v) => CompletionRises(s, i, v);
    case Trap => FailureStrikes(s, i, Trapped);
    case Exit => FailureStrikes(s, i, Exited);
  }

  /** The dispatched task afterwards. A completed body has its result and is finished exactly
      when it has no live child; one that traps or exits is finished at once and takes its
      live descendants along; one that waits has a new request, or traps if there is none. */
  lemma DispatchedSlot(d: Dispatch, r: seq<Task>)
    requires Quiet(d.tasks) && d.slot < |d.tasks| && d.tasks[d.slot].status.Ready? && Took(d, r)
    ensures |r| == |d.tasks|
    ensures var t, t' := d.tasks[d.slot], r[d.slot];
            match d.answer
            case Yield => t' == t
            case Wait =>
              if t.generation == U64_MAX || d.registered == SIZE_MAX then t'.status.Trapped? && t'.result.None?
              else t'.status.Waiting? && t'.pending && t'.generation == t.generation + 1
            case Complete(v) =>
              && t'.outcome.Completed? && t'.result == Some(v) && !t'.pending
              && (t'.status.Completed? <==> forall c :: 0 <= c < |d.tasks| && d.tasks[c].parent == d.slot + 1 ==> Terminal(d.tasks[c].status))
              && (!t'.status.Completed? ==> t'.status.Joining?)
            case Trap => t'.status.Trapped? && t'.outcome.Trapped? && t'.result.None?
            case Exit => t'.status.Exited? && t'.outcome.Exited? && t'.result.None?
    ensures d.answer.Trap? || d.answer.Exit? ==>
              forall k :: 0 <= k < |r| && k != d.slot && Below(d.tasks, d.slot + 1, k) ==>
                r[k].status.Cancelled? && r[k].result.None? && !r[k].pending
  {
    var ts, i := d.tasks, d.slot;
    ChildStep(Parents(ts), i + 1, i + 1);
    match d.answer
    case Yield =>
    case Wait =>
    case Complete(v) => CompletedSlot(ts, i, v, r);
    case Trap => StruckBelow(ts, i, Trapped, r);
    case Exit => StruckBelow(ts, i, Exited, r);
  }

  lemma CompletedSlot(ts: seq<Task>, i: nat, v: int, r: seq<Task>)
    requires Quiet(ts) && Tree(Parents(ts)) && i < |ts| && Rises(ts, i, v, r)
    ensures r[i].outcome.Completed? && r[i].result == Some(v) && !r[i].pending
    ensures r[i].status.Completed? <==> forall c :: 0 <= c < |ts| && ts[c].parent == i + 1 ==> Terminal(ts[c].status)
    ensures !r[i].status.Completed? ==> r[i].status.Joining?
  {
    hide Quiet;
    ChildStep(Parents(ts), i + 1, i + 1);
    assert r[i] == RisenAt(ts, i, v, r, i);
    hide Descendant;
    forall c | 0 <= c < |ts| && ts[c].parent == i + 1 ensures i < c && r[c] == ts[c] {
      assert r[c] == RisenAt(ts, i, v, r, c);
      assert Parents(ts)[c] <= c;
      if Descendant(Parents(ts), i + 1, c + 1) {
        DescendantIsLater(Parents(ts), i + 1, c + 1);
      }
    }
    forall c | i < c < |ts| && r[c].parent == i + 1 ensures ts[c].parent == i + 1 {
      assert r[c] == RisenAt(ts, i, v, r, c);
    }
  }

  lemma StruckBelow(ts: seq<Task>, i: nat, st: Status, r: seq<Task>)
    requires Tree(Parents(ts)) && i < |ts| && Strikes(ts, i, st, r)
    ensures forall k :: 0 <= k < |r| && k != i && Below(ts, i + 1, k) ==> r[k] == Ended(ts[k], Cancelled)
  {
    hide Descendant;
    forall k | 0 <= k < |r| && k != i && Below(ts, i + 1, k) ensures r[k] == Ended(ts[k], Cancelled) {
      SameRoot(Parents(ts), k + 1, i + 1);
      if Descendant(Parents(ts), i + 1, k + 1) {
        DescendantBoth(Parents(ts), i + 1, k + 1);
      }
    }
  }

  // ----- Many dispatches -----

  ghost function Next(ds: seq<Dispatch>, k: nat, last: seq<Task>): seq<Task>
    requires k < |ds|
  {
    if k + 1 < |ds| then ds[k + 1].tasks else last
  }

  /** From dispatch `a` on, each dispatch found the table that the one before it left. */
  ghost predicate Chain(ds: seq<Dispatch>, a: nat, last: seq<Task>) {
    forall k :: a <= k < |ds| ==> Took(ds[k], Next(ds, k, last))
  }

  ghost predicate Answers(ds: seq<Dispatch>, a: nat, oracle: nat -> Outcome) {
    forall k :: a <= k < |ds| ==> ds[k].answer == oracle(k)
  }

  /** No task is left to dispatch. */
  ghost predicate NoReady(ts: seq<Task>) {
    forall k :: 0 <= k < |ts| ==> !ts[k].status.Ready?
  }

  /** `ds` extends `past` by at most `budget` dispatches that turned `first` into `last`, each
      doing what the bodies answered; fewer only if no task is ready any more. */
  ghost predicate Dispatching(
    past: seq<Dispatch>, first: seq<Task>, ds: seq<Dispatch>, last: seq<Task>, budget: nat, oracle: nat -> Outcome)
  {
    && past <= ds && |ds| <= |past| + budget
    && (if |ds| == |past| then last == first else ds[|past|].tasks == first)
    && Chain(ds, |past|, last) && Answers(ds, |past|, oracle)
    && (|ds| < |past| + budget ==> NoReady(last))
  }

  lemma ChainLonger(
    past: seq<Dispatch>, d: Dispatch, mid: seq<Task>, ds: seq<Dispatch>, last: seq<Task>, budget: nat, oracle: nat -> Outcome)
    requires Took(d, mid) && d.answer == oracle(|past|) && budget > 0
    requires Dispatching(past + [d], mid, ds, last, budget - 1, oracle)
    ensures Dispatching(past, d.tasks, ds, last, budget, oracle)
  {
    hide Took, NoReady;
    assert ds[|past|] == d && past <= ds;
    assert Next(ds, |past|, last) == mid;
  }

  /** A full scan without a hit has seen every slot. */
  lemma ScanSawAll(ts: seq<Task>, cursor: nat)
    requires cursor < |ts| && Scan(ts, cursor, |ts|).0.None?
    ensures NoReady(ts)
  {
    var n := |ts|;
    var d := ScanWorks(ts, cursor, n);
    hide Scan;
    forall t | 0 <= t < n ensures !ts[t].status.Ready? {
      var e := if t >= cursor then t - cursor else t + n - cursor;
      assert Ahead(n, cursor, e) == t;
    }
  }

  // ----- Cancellation -----

  /** A cancellation is accepted exactly for a task of this session outside a pump. A refused
      one, and one of a finished task, changes nothing; any other strikes the tree. */
  ghost predicate Cancels(s: Session, id: TaskId, r: Session, ok: bool)
    requires Tree(Parents(s.tasks))
  {
    && (ok <==> id.session == s.identity && 0 < id.slot <= |s.tasks| && !s.pumping)
    && (!ok || Terminal(s.tasks[id.slot - 1].status) ==> r == s)
    && (ok && !Terminal(s.tasks[id.slot - 1].status) ==> Strikes(s.tasks, id.slot - 1, Cancelled, r.tasks))
  }

  lemma CancelTakes(s: Session, id: TaskId)
    requires Quiet(s.tasks)
    ensures Tree(Parents(s.tasks)) && Cancels(s, id, CancelCall(s, id).0, CancelCall(s, id).1)
  {
    hide Quiet, Settle, Cancel, Strikes;
    QuietTree(s.tasks);
    if Lookup(s, id).Some? && !s.pumping {
      if Terminal(s.tasks[id.slot - 1].status) {
        CancelFinished(s, id.slot - 1);
      } else {
        CancelStrikes(s, id.slot - 1);
      }
    }
  }

  /** Slot `a` is on the parent chain that starts at task `k`. */
  ghost predicate Meets(ts: seq<Task>, k: nat, a: nat)
    requires Tree(Parents(ts)) && k < |ts|
  {
    0 < a && Descendant(Parents(ts), k + 1, a)
  }

  /** What a strike by cancellation means for another task `k`: the task and all live tasks
      below it are cancelled, its live ancestors trap, and a task whose chain meets neither
      it nor an ancestor of it is as before. */
  lemma CancelledTree(ts: seq<Task>, i: nat, r: seq<Task>, k: nat)
    requires Tree(Parents(ts)) && i < |ts| && k < |ts| && !Terminal(ts[i].status) && Strikes(ts, i, Cancelled, r)
    ensures !Terminal(ts[k].status) && Meets(ts, k, i + 1) ==>
              r[k].status.Cancelled? && r[k].result.None? && !r[k].pending
    ensures !Terminal(ts[k].status) && k != i && Meets(ts, i, k + 1) ==>
              r[k].status.Trapped? && r[k].result.None? && !r[k].pending
    ensures Terminal(ts[k].status) ==> r[k] == ts[k]
    ensures (forall a :: Meets(ts, i, a) ==> !Meets(ts, k, a)) ==>
              r[k] == ts[k]
  {
    var ps := Parents(ts);
    hide Descendant, Root;
    assert r[k] == Struck(ts, i, Cancelled, k);
    RootBelow(ps, k + 1);
    RootBelow(ps, i + 1);
    assert Meets(ts, i, Root(ps, i + 1)) && Meets(ts, k, Root(ps, k + 1));
    if Descendant(ps, k + 1, i + 1) {
      SameRoot(ps, k + 1, i + 1);
      if Descendant(ps, i + 1, k + 1) {
        DescendantBoth(ps, i + 1, k + 1);
      }
    } else if Descendant(ps, i + 1, k + 1) {
      SameRoot(ps, i + 1, k + 1);
    }
  }

  // ----- Delivery -----

  /** The table `r` is what delivering the completion `e` makes of the table of `s`: a stale
      one does nothing, a payload that does not trap makes exactly its task ready again, and
      one that traps strikes the tree of its task. */
  ghost predicate Delivers(s: Session, e: Completion, r: seq<Task>)
    requires Tree(Parents(s.tasks))
  {
    if !PendingOp(s, e.op) then r == s.tasks
    else
      var i := e.op.task.slot - 1;
      if e.traps then Strikes(s.tasks, i, Trapped, r)
      else r == s.tasks[i := s.tasks[i].(status := Ready, pending := false, queued := false)]
  }

  lemma SameStrike(ts: seq<Task>, us: seq<Task>, i: nat, st: Status, r: seq<Task>)
    requires Tree(Parents(ts)) && i < |ts| && !Terminal(ts[i].status)
    requires |us| == |ts| && us == ts[i := us[i]] && !Terminal(us[i].status) && Ended(us[i], st) == Ended(ts[i], st)
    requires us[i].parent == ts[i].parent
    ensures Parents(us) == Parents(ts) && (Strikes(us, i, st, r) ==> Strikes(ts, i, st, r))
  {
    assert Parents(us) == Parents(ts);
    hide Descendant, Root;
    if Strikes(us, i, st, r) {
      forall k | 0 <= k < |ts| ensures r[k] == Struck(ts, i, st, k) {
        assert r[k] == Struck(us, i, st, k);
      }
    }
  }

  lemma ResumedStrikes(s: Session, op: OpId, m: Session)
    requires Quiet(s.tasks) && PendingOp(s, op)
    requires m.tasks == Resume(s, op.task.slot - 1).tasks
    ensures Tree(Parents(s.tasks)) && Tree(Parents(m.tasks))
    ensures Strikes(s.tasks, op.task.slot - 1, Trapped, EndBody(m, op.task.slot - 1, Trapped, None).tasks)
  {
    var i := op.task.slot - 1;
    assert Coherent(s.tasks[i]);
    QuietTree(s.tasks);
    QuietUpdate(s.tasks, i, m.tasks[i]);
    hide Quiet, EndBody, Strikes;
    FailureStrikes(m, i, Trapped);
    SameStrike(s.tasks, m.tasks, i, Trapped, EndBody(m, i, Trapped, None).tasks);
  }

  lemma DeliverTakes(s: Session, e: Completion)
    requires Quiet(s.tasks)
    ensures Tree(Parents(s.tasks)) && Delivers(s, e, DeliverEvent(s, e).tasks)
    ensures DeliverEvent(s, e).delivered == s.delivered + if PendingOp(s, e.op) then [e.op] else []
  {
    hide Quiet, EndBody, Strikes;
    QuietTree(s.tasks);
    if PendingOp(s, e.op) && e.traps {
      ResumedStrikes(s, e.op, Resume(s, e.op.task.slot - 1).(delivered := s.delivered + [e.op]));
    }
  }

  // ----- Admission and completion calls -----

  ghost predicate Names(s: Session, id: TaskId) {
    id.session == s.identity && 0 < id.slot <= |s.tasks|
  }

  /** The task that an admission adds. */
  ghost predicate Fresh(s: Session, parent: TaskId, asyncRead: bool, deadline: nat, t: Task) {
    && t.parent == parent.slot && t.asyncRead == asyncRead && t.generation == 0
    && t.status.Ready? && t.outcome.Invalid? && t.result.None? && !t.pending && !t.queued
    && t.deadline <= deadline
    && (Names(s, parent) ==> t.deadline <= s.tasks[parent.slot - 1].deadline)
    && (t.deadline == deadline || (Names(s, parent) && t.deadline == s.tasks[parent.slot - 1].deadline))
  }

  /** Spawning succeeds exactly under an unfinished parent, or none, with a free slot, outside
      a pump, if the execution could be created. It adds one ready task, found under the
      returned id and under no id before, with the given parent and kind and the earlier of
      its own and its parent's deadline; every other task stays as it is. */
  ghost predicate Spawns(
    s: Session, parent: TaskId, asyncRead: bool, deadline: nat, created: bool, r: Session, id: TaskId)
  {
    && (id != TaskId(0, 0) <==>
          && !s.pumping && |s.tasks| != s.capacity && created
          && (parent == TaskId(0, 0) || (Names(s, parent) && Unfinished(s.tasks[parent.slot - 1]))))
    && (id == TaskId(0, 0) ==> r == s)
    && (id != TaskId(0, 0) ==>
          && !Names(s, id) && Names(r, id) && id.slot == |s.tasks| + 1
          && r == s.(tasks := r.tasks) && |r.tasks| == |s.tasks| + 1 && r.tasks[..|s.tasks|] == s.tasks
          && Fresh(s, parent, asyncRead, deadline, r.tasks[|s.tasks|]))
  }

  lemma SpawnTakes(s: Session, parent: TaskId, asyncRead: bool, deadline: nat, created: bool)
    ensures var (r, id) := Spawn(s, parent, asyncRead, deadline, created);
            Spawns(s, parent, asyncRead, deadline, created, r, id)
  {
    var (r, id) := Spawn(s, parent, asyncRead, deadline, created);
    assert id != TaskId(0, 0) ==> r.tasks[..|s.tasks|] == s.tasks;
  }

  /** A completion is accepted exactly for the request its task is waiting on, of the same
      kind, not queued before, outside a pump and with room in the ring. It goes to the end
      of the ring and marks the task; a refused one changes nothing. */
  ghost predicate Completes(s: Session, op: OpId, traps: bool, read: bool, r: Session, ok: bool) {
    && (ok <==>
          && Names(s, op.task) && !s.pumping && |s.ring| != s.ringCapacity
          && var t := s.tasks[op.task.slot - 1];
             t.status.Waiting? && t.generation == op.generation && t.asyncRead == read && !t.queued)
    && (!ok ==> r == s)
    && (ok ==>
          && r == s.(tasks := r.tasks, ring := s.ring + [Completion(op, traps)]) && |r.tasks| == |s.tasks|
          && forall k :: 0 <= k < |s.tasks| ==>
               r.tasks[k] == if k + 1 == op.task.slot then s.tasks[k].(queued := true) else s.tasks[k])
  }

  lemma CompleteTakes(s: Session, op: OpId, traps: bool, read: bool)
    requires Quiet(s.tasks)
    ensures Completes(s, op, traps, read, CompleteCall(s, op, traps, read).0, CompleteCall(s, op, traps, read).1)
  {
    if Lookup(s, op.task).Some? {
      assert Coherent(s.tasks[op.task.slot - 1]);
    }
  }
}
