/** Where results come from: over every run of a session, a task completes with a value only
    if one of its own dispatches produced that value, and exits only if one of them exited. */
module TaskOrigins {
  import opened TaskModel
  import opened TaskProofs
  import opened TaskRuns
  import opened TaskStrike
  import opened TaskExpiry
  import opened TaskEffects
  import opened TaskTheorems

  /** Some dispatch of slot `i` answered `o`. */
  ghost predicate Answered(ds: seq<Dispatch>, i: nat, o: Outcome) {
    exists k :: 0 <= k < |ds| && ds[k].slot == i && ds[k].answer == o
  }

  ghost predicate EarnedAt(ds: seq<Dispatch>, i: nat, t: Task) {
    && (t.outcome.Completed? ==> t.result.Some? && Answered(ds, i, Complete(t.result.value)))
    && (t.outcome.Exited? ==> Answered(ds, i, Exit))
  }

  /** Every completed and every exited body has the dispatch that made it so. */
  ghost predicate Earned(ts: seq<Task>, ds: seq<Dispatch>) {
    forall i :: 0 <= i < |ts| ==> EarnedAt(ds, i, ts[i])
  }

  lemma AnsweredLonger(ds: seq<Dispatch>, ds': seq<Dispatch>, i: nat, o: Outcome)
    requires ds <= ds' && Answered(ds, i, o)
    ensures Answered(ds', i, o)
  {
    var k :| 0 <= k < |ds| && ds[k].slot == i && ds[k].answer == o;
    assert ds'[k] == ds[k];
  }

  lemma EarnedKept(ts: seq<Task>, r: seq<Task>, ds: seq<Dispatch>)
    requires Earned(ts, ds) && NothingNew(ts, r)
    ensures Earned(r, ds)
  {
    forall i | 0 <= i < |r| ensures EarnedAt(ds, i, r[i]) {
      assert SameFruit(ts[i], r[i]) && EarnedAt(ds, i, ts[i]);
    }
  }

  lemma StruckFruit(ts: seq<Task>, i: nat, st: Status, r: seq<Task>, k: nat)
    requires Tree(Parents(ts)) && i < |ts| && k < |ts| && Strikes(ts, i, st, r)
    requires st.Trapped? || st.Cancelled? || (st.Exited? && k != i)
    ensures SameFruit(ts[k], r[k])
  {
    hide Descendant, Root;
    assert r[k] == Struck(ts, i, st, k);
  }

  /** A dispatch gives its own slot the outcome it answered and nobody else a new one. */
  lemma TookFruit(d: Dispatch, r: seq<Task>, k: nat)
    requires Took(d, r) && k < |d.tasks|
    ensures |r| == |d.tasks|
    ensures || SameFruit(d.tasks[k], r[k])
            || (k == d.slot && d.answer.Complete? && r[k].outcome.Completed? && r[k].result == Some(d.answer.value))
            || (k == d.slot && d.answer.Exit? && r[k].outcome.Exited?)
  {
    hide Descendant, Root, Joined;
    match d.answer
    case Yield =>
    case Wait =>
      var t := d.tasks[d.slot];
      if t.generation == U64_MAX || d.registered == SIZE_MAX {
        StruckFruit(d.tasks, d.slot, Trapped, r, k);
      }
    case Complete(v) =>
      assert r[k] == RisenAt(d.tasks, d.slot, v, r, k);
    case Trap => StruckFruit(d.tasks, d.slot, Trapped, r, k);
    case Exit =>
      if k != d.slot {
        StruckFruit(d.tasks, d.slot, Exited, r, k);
      } else {
        assert r[k] == Struck(d.tasks, d.slot, Exited, k);
      }
  }

  lemma TookEarned(d: Dispatch, r: seq<Task>, ds: seq<Dispatch>)
    requires Took(d, r) && Earned(d.tasks, ds)
    ensures Earned(r, ds + [d])
  {
    forall k | 0 <= k < |r| ensures EarnedAt(ds + [d], k, r[k]) {
      assert |r| == |d.tasks| by { TookFruit(d, r, d.slot); }
      TookFruit(d, r, k);
      hide Took;
      assert EarnedAt(ds, k, d.tasks[k]);
      if SameFruit(d.tasks[k], r[k]) {
        EarnedLonger(ds, ds + [d], k, d.tasks[k]);
      } else {
        assert (ds + [d])[|ds|] == d;
      }
    }
  }

  lemma EarnedLonger(ds: seq<Dispatch>, ds': seq<Dispatch>, i: nat, t: Task)
    requires ds <= ds' && EarnedAt(ds, i, t)
    ensures EarnedAt(ds', i, t)
  {
    hide Answered;
    if t.outcome.Completed? {
      AnsweredLonger(ds, ds', i, Complete(t.result.value));
    }
    if t.outcome.Exited? {
      AnsweredLonger(ds, ds', i, Exit);
    }
  }

  /** Along a chain of dispatches every result stays accounted for. */
  lemma {:induction false} ChainEarned(ds: seq<Dispatch>, a: nat, last: seq<Task>)
    requires a <= |ds| && Chain(ds, a, last)
    requires Earned(if a < |ds| then ds[a].tasks else last, ds[..a])
    ensures Earned(last, ds)
    decreases |ds| - a
  {
    hide Took, Earned;
    if a == |ds| {
      assert ds[..a] == ds;
    } else {
      assert Took(ds[a], Next(ds, a, last));
      TookEarned(ds[a], Next(ds, a, last), ds[..a]);
      assert ds[..a] + [ds[a]] == ds[..a + 1];
      ChainEarned(ds, a + 1, last);
    }
  }

  // ----- The calls -----

  lemma DeliverEventNothingNew(s: Session, e: Completion)
    requires Tree(Parents(s.tasks))
    ensures NothingNew(s.tasks, DeliverEvent(s, e).tasks)
  {
    hide EndBody;
    if PendingOp(s, e.op) {
      var i := e.op.task.slot - 1;
      var m := Resume(s, i).(delivered := s.delivered + [e.op]);
      assert NothingNew(s.tasks, m.tasks);
      hide NothingNew;
      if e.traps {
        TrappedNothingNew(m, i);
        NothingNewTwice(s.tasks, m.tasks, EndBody(m, i, Trapped, None).tasks);
      }
    } else {
      NothingNewSelf(s.tasks);
    }
  }

  lemma {:induction false} DeliverNothingNew(s: Session)
    requires Tree(Parents(s.tasks))
    ensures NothingNew(s.tasks, Deliver(s).tasks)
    decreases |s.ring|
  {
    hide DeliverEvent, NothingNew;
    if s.ring == [] {
      NothingNewSelf(s.tasks);
    } else {
      var m := DeliverOne(s);
      DeliverEventNothingNew(s.(ring := s.ring[1..]), s.ring[0]);
      DeliverNothingNew(m);
      NothingNewTwice(s.tasks, m.tasks, Deliver(s).tasks);
    }
  }

  lemma {:induction false} ExpireNothingNew(s: Session, i: nat)
    requires i <= |s.tasks| && Tree(Parents(s.tasks))
    ensures NothingNew(s.tasks, ExpireFrom(s, i).tasks)
    decreases |s.tasks| - i
  {
    hide Cancel, NothingNew;
    NothingNewSelf(s.tasks);
    if i < |s.tasks| {
      var m := if Expired(s.tasks[i], s.now) then Cancel(s, i + 1, true) else s;
      assert |Parents(m.tasks)| == |s.tasks|;
      CancelNothingNew(s, i + 1, true);
      ExpireNothingNew(m, i + 1);
      NothingNewTwice(s.tasks, m.tasks, ExpireFrom(s, i).tasks);
    }
  }

  lemma PrepareNothingNew(s: Session, now: nat)
    requires Tree(Parents(s.tasks))
    ensures NothingNew(s.tasks, Prepare(s, now).tasks)
  {
    hide Deliver, ExpireFrom, SettleBelow, NothingNew;
    var m := Deliver(s.(pumping := true, now := now));
    var e := ExpireFrom(m, 0);
    DeliverNothingNew(s.(pumping := true, now := now));
    ExpireNothingNew(m, 0);
    SettleNothingNew(e, |e.tasks|);
    NothingNewTwice(s.tasks, m.tasks, e.tasks);
    NothingNewTwice(s.tasks, e.tasks, Prepare(s, now).tasks);
  }

  lemma CancelCallNothingNew(s: Session, id: TaskId)
    requires Tree(Parents(s.tasks))
    ensures NothingNew(s.tasks, CancelCall(s, id).0.tasks)
    ensures CancelCall(s, id).0.dispatched == s.dispatched
  {
    hide Cancel, SettleBelow, NothingNew;
    NothingNewSelf(s.tasks);
    var c := Cancel(s, id.slot, true);
    CancelNothingNew(s, id.slot, true);
    SettleNothingNew(c, |c.tasks|);
    NothingNewTwice(s.tasks, c.tasks, Settle(c).tasks);
  }

  lemma PumpEarned(s: Session, now: nat, budget: nat, oracle: nat -> Outcome) returns (r: Session)
    requires Inv(s) && Earned(s.tasks, s.dispatched)
    ensures Tree(Parents(s.tasks)) && CursorOk(s)
    ensures r == Pump(s, now, budget, oracle).0 && Earned(r.tasks, r.dispatched)
  {
    hide Pump, Earned, Prepare, Core, Took;
    CoreQuiet(s);
    CoreCursor(s);
    r := PumpWorks(s, now, budget, oracle);
    if s.now <= now {
      PrepareNothingNew(s, now);
      EarnedKept(s.tasks, Prepare(s, now).tasks, s.dispatched);
      assert r.dispatched[..|s.dispatched|] == s.dispatched;
      ChainEarned(r.dispatched, |s.dispatched|, r.tasks);
    }
  }

  lemma SpawnEarned(s: Session, parent: TaskId, asyncRead: bool, deadline: nat, created: bool)
    requires Earned(s.tasks, s.dispatched)
    ensures var r := Spawn(s, parent, asyncRead, deadline, created).0; Earned(r.tasks, r.dispatched)
  {
  }

  lemma CompleteEarned(s: Session, op: OpId, traps: bool, read: bool)
    requires Earned(s.tasks, s.dispatched)
    ensures var r := CompleteCall(s, op, traps, read).0; Earned(r.tasks, r.dispatched)
  {
    var r := CompleteCall(s, op, traps, read).0;
    assert NothingNew(s.tasks, r.tasks);
    EarnedKept(s.tasks, r.tasks, s.dispatched);
  }

  lemma ApplyEarned(s: Session, c: Call)
    requires Inv(s) && Earned(s.tasks, s.dispatched)
    ensures var r := ApplyFacts(s, c); Earned(r.tasks, r.dispatched)
  {
    hide Earned, Spawn, CancelCall, CompleteCall, Pump, Core;
    CoreCursor(s);
    match c
    case SpawnTask(parent, asyncRead, deadline, created) => SpawnEarned(s, parent, asyncRead, deadline, created);
    case CancelTask(id) =>
      CancelCallNothingNew(s, id);
      EarnedKept(s.tasks, CancelCall(s, id).0.tasks, s.dispatched);
    case CompleteOp(op, traps, read) => CompleteEarned(s, op, traps, read);
    case PumpTasks(now, budget, oracle) => var r := PumpEarned(s, now, budget, oracle);
  }

  lemma {:induction false} RunEarned(s: Session, calls: seq<Call>)
    requires Inv(s) && Earned(s.tasks, s.dispatched)
    ensures Earned(Run(s, calls).tasks, Run(s, calls).dispatched)
    decreases |calls|
  {
    hide Earned, Inv;
    if calls != [] {
      ApplyEarned(s, calls[0]);
      RunEarned(ApplyFacts(s, calls[0]), calls[1..]);
    }
  }

  /** Over every run from a new session: a completed task has a result that one of its own
      dispatches produced, and an exited task has a dispatch that exited. */
  lemma ResultsEarned(taskLimit: nat, eventLimit: nat, lastSession: nat, calls: seq<Call>, i: nat)
    requires Create(taskLimit, eventLimit, lastSession).Some?
    ensures var s := Create(taskLimit, eventLimit, lastSession).value;
            && Inv(s)
            && var r := Run(s, calls);
               i < |r.tasks| ==>
                 && (r.tasks[i].status.Completed? ==>
                       && r.tasks[i].result.Some?
                       && exists k :: 0 <= k < |r.dispatched| && r.dispatched[k].slot == i
                            && r.dispatched[k].answer == Complete(r.tasks[i].result.value))
                 && (r.tasks[i].status.Exited? ==>
                       exists k :: 0 <= k < |r.dispatched| && r.dispatched[k].slot == i && r.dispatched[k].answer == Exit)
  {
    CreateWorks(taskLimit, eventLimit, lastSession);
    var s := Create(taskLimit, eventLimit, lastSession).value;
    RunEarned(s, calls);
    var r := Run(s, calls);
    if i < |r.tasks| {
      CoreQuiet(r);
      assert Coherent(r.tasks[i]) && EarnedAt(r.dispatched, i, r.tasks[i]);
    }
  }
}
