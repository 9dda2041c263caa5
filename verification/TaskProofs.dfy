/** What cancellation, settling and ending a body keep and establish, proved on the
    functions of TaskModel. The central fact is that one reverse traversal settles the
    whole tree: every failure has reached its ancestors and no scope waits for nothing. */
module TaskProofs {
  import opened TaskModel

  // ----- Invariants of the task table -----

  /** Status, outcome, request flags and result of one task agree. */
  ghost predicate Coherent(t: Task) {
    && !t.status.Invalid?
    && (t.status.Ready? || t.status.Waiting? ==> t.outcome.Invalid?)
    && (t.status.Joining? ==> t.outcome.Completed? || t.outcome.Trapped? || t.outcome.Exited?)
    && (Terminal(t.status) ==> t.outcome == t.status)
    && (t.pending <==> t.status.Waiting?)
    && (t.queued ==> t.pending)
    && (t.result.Some? <==> t.outcome.Completed?)
  }

  /** What a child `c` of `p` owes to the state of `p`. */
  ghost predicate EdgeOk(c: Task, p: Task) {
    && (Terminal(p.status) ==> Terminal(c.status))
    && (p.status.Completed? ==> c.status.Completed?)
    && (p.status.Joining? && Failed(p.outcome) ==> Terminal(c.status))
  }

  ghost predicate HasParent(ts: seq<Task>, c: int) {
    0 <= c < |ts| && 0 < ts[c].parent <= c
  }

  /** Kept by every step, also in the middle of a traversal. */
  ghost predicate Closed(ts: seq<Task>) {
    && Tree(Parents(ts))
    && (forall i :: 0 <= i < |ts| ==> Coherent(ts[i]))
    && (forall c :: HasParent(ts, c) ==> EdgeOk(ts[c], ts[ts[c].parent - 1]))
  }

  /** A failed child has been reported to its parent. */
  ghost predicate Reported(c: Task, p: Task) {
    Failed(c.status) ==> Terminal(p.status) || Failed(p.outcome)
  }

  ghost predicate SettledAt(ts: seq<Task>, k: nat)
    requires k < |ts|
  {
    && (HasParent(ts, k) ==> Reported(ts[k], ts[ts[k].parent - 1]))
    && (ts[k].status.Joining? ==> !Joined(ts, k))
  }

  ghost predicate SettledFrom(ts: seq<Task>, i: nat) {
    forall k :: i <= k < |ts| ==> SettledAt(ts, k)
  }

  /** The state of the table between public calls. */
  ghost predicate Quiet(ts: seq<Task>) {
    Closed(ts) && SettledFrom(ts, 0)
  }

  /** What cancelling and settling may do to one task. */
  ghost predicate Evolved(t: Task, t': Task) {
    t' == t
    || (&& !Terminal(t.status)
        && (Terminal(t'.status) || (t'.status.Joining? && Failed(t'.outcome)))
        && !t'.pending
        && t' == t.(status := t'.status, outcome := t'.outcome, result := t'.result,
                    pending := false, queued := false))
  }

  ghost predicate Evolves(ts: seq<Task>, ts': seq<Task>) {
    |ts'| == |ts| && forall i :: 0 <= i < |ts| ==> Evolved(ts[i], ts'[i])
  }

  // ----- Descendants -----

  lemma {:induction false} DescendantIsLater(ps: seq<nat>, slot: nat, root: nat)
    requires Tree(ps) && slot <= |ps| && Descendant(ps, slot, root)
    ensures root <= slot
    decreases slot
  {
    if slot != 0 && slot != root {
      DescendantIsLater(ps, ps[slot - 1], root);
    }
  }

  /** The proper descendants of `root` are the children of its descendants. */
  lemma DescendantStep(ts: seq<Task>, c: nat, root: nat)
    requires Tree(Parents(ts)) && HasParent(ts, c) && root > 0
    ensures c + 1 != root ==>
      (Descendant(Parents(ts), c + 1, root) <==> Descendant(Parents(ts), ts[c].parent, root))
    ensures c + 1 == root ==> !Descendant(Parents(ts), ts[c].parent, root)
  {
    if c + 1 == root && Descendant(Parents(ts), ts[c].parent, root) {
      DescendantIsLater(Parents(ts), ts[c].parent, root);
    }
  }

  // ----- Cancelling -----

  /** Edges are in order except those into a body that has just failed. */
  ghost predicate ClosedBut(ts: seq<Task>, root: nat) {
    && Tree(Parents(ts))
    && (forall i :: 0 <= i < |ts| ==> Coherent(ts[i]))
    && (forall c :: HasParent(ts, c) ==>
          || EdgeOk(ts[c], ts[ts[c].parent - 1])
          || (ts[c].parent == root && ts[root - 1].status.Joining?))
  }

  lemma CancelClosesEdge(ts: seq<Task>, root: nat, self: bool, c: nat)
    requires 0 < root && HasParent(ts, c)
    requires if self then Closed(ts) else ClosedBut(ts, root)
    ensures var r := CancelTasks(ts, root, self); EdgeOk(r[c], r[ts[c].parent - 1])
  {
    DescendantStep(ts, c, root);
  }

  lemma CancelKeepsClosed(ts: seq<Task>, root: nat, self: bool)
    requires 0 < root
    requires if self then Closed(ts) else ClosedBut(ts, root)
    ensures Closed(CancelTasks(ts, root, self))
    ensures Evolves(ts, CancelTasks(ts, root, self))
  {
    var r := CancelTasks(ts, root, self);
    assert Parents(r) == Parents(ts);
    forall c | HasParent(r, c)
      ensures EdgeOk(r[c], r[r[c].parent - 1])
    {
      assert HasParent(ts, c);
      CancelClosesEdge(ts, root, self, c);
    }
  }

  // ----- Settling -----

  lemma JoinKeepsClosed(s: Session, i: nat)
    requires i < |s.tasks| && Closed(s.tasks) && SettledFrom(s.tasks, i + 1)
    ensures Closed(JoinAt(s, i).tasks)
    ensures Evolves(s.tasks, JoinAt(s, i).tasks)
  {
    var ts, r := s.tasks, JoinAt(s, i).tasks;
    assert Parents(r) == Parents(ts);
    forall c | HasParent(r, c)
      ensures EdgeOk(r[c], r[r[c].parent - 1])
    {
      assert HasParent(ts, c);
      if ts[c].parent == i + 1 {
        assert SettledAt(ts, c);
      }
    }
  }

  lemma JoinSettles(s: Session, i: nat)
    requires i < |s.tasks| && Closed(s.tasks) && SettledFrom(s.tasks, i + 1)
    ensures SettledFrom(JoinAt(s, i).tasks, i + 1)
    ensures JoinAt(s, i).tasks[i].status.Joining? ==> !Joined(JoinAt(s, i).tasks, i)
    ensures s.tasks[i].status.Joining? ==>
              (Terminal(JoinAt(s, i).tasks[i].status) <==>
                 !exists c :: i < c < |s.tasks| && s.tasks[c].parent == i + 1 && !Terminal(s.tasks[c].status))
    ensures s.tasks[i].status.Joining? && Terminal(JoinAt(s, i).tasks[i].status) ==>
              JoinAt(s, i).tasks[i].status == s.tasks[i].outcome
    ensures JoinAt(s, i).tasks[i].status.Joining? ==> JoinAt(s, i).tasks[i] == s.tasks[i]
    ensures forall k :: 0 <= k < |s.tasks| && k != i ==> JoinAt(s, i).tasks[k] == s.tasks[k]
  {
    var ts, r := s.tasks, JoinAt(s, i).tasks;
    forall k | i + 1 <= k < |r|
      ensures SettledAt(r, k)
    {
      assert SettledAt(ts, k);
      if r[k].status.Joining? {
        var c :| k < c < |ts| && ts[c].parent == k + 1 && !Terminal(ts[c].status);
        assert r[c] == ts[c];
      }
    }
  }

  /** The table once `p` has been failed and its children cancelled. */
  ghost function FailedScope(ts: seq<Task>, p: nat): (r: seq<Task>)
    requires Closed(ts) && p < |ts|
    ensures Parents(r) == Parents(ts)
  {
    var f := ts[p := Finished(ts[p], Trapped, None)];
    assert Parents(f) == Parents(ts);
    CancelTasks(f, p + 1, false)
  }

  lemma FailedScopeAt(ts: seq<Task>, p: nat, k: nat)
    requires Closed(ts) && p < k < |ts|
    ensures FailedScope(ts, p)[p] == Finished(ts[p], Trapped, None)
    ensures FailedScope(ts, p)[k] ==
      if !Terminal(ts[k].status) && Descendant(Parents(ts), k + 1, p + 1)
      then CancelledTask(ts[k]) else ts[k]
  {
    var f := ts[p := Finished(ts[p], Trapped, None)];
    assert Parents(f) == Parents(ts);
  }

  /** Tasks before the failed one are not below it. */
  lemma FailedScopeBefore(ts: seq<Task>, p: nat, q: nat)
    requires Closed(ts) && q < p < |ts|
    ensures FailedScope(ts, p)[q] == ts[q]
  {
    var f := ts[p := Finished(ts[p], Trapped, None)];
    assert Parents(f) == Parents(ts);
    hide Descendant;
    if Descendant(Parents(ts), q + 1, p + 1) {
      DescendantIsLater(Parents(ts), q + 1, p + 1);
    }
  }

  lemma FailedScopeReports(ts: seq<Task>, p: nat, k: nat)
    requires Closed(ts) && p < k < |ts| && !Terminal(ts[p].status)
    requires HasParent(ts, k) ==> ts[k].parent == p + 1 || Reported(ts[k], ts[ts[k].parent - 1])
    ensures var r := FailedScope(ts, p);
            HasParent(ts, k) ==> Reported(r[k], r[ts[k].parent - 1])
  {
    FailedScopeAt(ts, p, k);
    if HasParent(ts, k) && ts[k].parent != p + 1 {
      DescendantStep(ts, k, p + 1);
      hide Closed, FailedScope, Descendant, Parents;
      var q := ts[k].parent - 1;
      if p < q {
        FailedScopeAt(ts, p, q);
      } else {
        FailedScopeBefore(ts, p, q);
      }
    }
  }

  lemma FailedScopeJoins(ts: seq<Task>, p: nat, k: nat)
    requires Closed(ts) && p < k < |ts| && !Terminal(ts[p].status)
    requires ts[k].status.Joining? ==> !Joined(ts, k)
    ensures var r := FailedScope(ts, p);
            r[k].status.Joining? ==> !Joined(r, k)
  {
    assert Tree(Parents(ts));
    hide Closed, FailedScope, Descendant;
    var r := FailedScope(ts, p);
    FailedScopeAt(ts, p, k);
    if r[k].status.Joining? {
      var c :| k < c < |ts| && ts[c].parent == k + 1 && !Terminal(ts[c].status);
      FailedScopeAt(ts, p, c);
      assert HasParent(ts, c);
      DescendantStep(ts, c, p + 1);
      assert r[c] == ts[c];
    }
  }

  lemma FailedScopeKeeps(ts: seq<Task>, p: nat)
    requires Closed(ts) && p < |ts| && !Terminal(ts[p].status)
    ensures Closed(FailedScope(ts, p)) && Evolves(ts, FailedScope(ts, p))
  {
    var f := ts[p := Finished(ts[p], Trapped, None)];
    FailedBodyClosedBut(ts, p, Trapped);
    CancelKeepsClosed(f, p + 1, false);
    EvolvesTwice(ts, f, FailedScope(ts, p));
  }

  lemma PropagateIsFailedScope(s: Session, i: nat)
    requires i < |s.tasks| && Closed(s.tasks)
    ensures PropagateAt(s, i).tasks ==
      if HasParent(s.tasks, i) && !Reported(s.tasks[i], s.tasks[s.tasks[i].parent - 1])
      then FailedScope(s.tasks, s.tasks[i].parent - 1) else s.tasks
  {
  }

  lemma FailedScopeSettles(ts: seq<Task>, p: nat, k: nat)
    requires Closed(ts) && p < k < |ts| && !Terminal(ts[p].status)
    requires HasParent(ts, k) ==> ts[k].parent == p + 1 || Reported(ts[k], ts[ts[k].parent - 1])
    requires ts[k].status.Joining? ==> !Joined(ts, k)
    ensures SettledAt(FailedScope(ts, p), k)
  {
    FailedScopeReports(ts, p, k);
    FailedScopeJoins(ts, p, k);
    hide Closed, FailedScope, Reported, Joined;
    var r := FailedScope(ts, p);
    assert Parents(r)[k] == Parents(ts)[k];
    assert r[k].parent == ts[k].parent;
  }

  lemma FailedScopeSettlesFrom(ts: seq<Task>, p: nat, i: nat)
    requires Closed(ts) && p < i < |ts| && !Terminal(ts[p].status) && ts[i].parent == p + 1
    requires SettledFrom(ts, i + 1) && (ts[i].status.Joining? ==> !Joined(ts, i))
    ensures SettledFrom(FailedScope(ts, p), i)
  {
    FailedScopeKeeps(ts, p);
    SameLength(ts, FailedScope(ts, p));
    hide FailedScope, Closed, Evolves, Joined, Reported;
    var r := FailedScope(ts, p);
    forall k | i <= k < |r| ensures SettledAt(r, k) {
      assert k > i ==> SettledAt(ts, k);
      FailedScopeSettles(ts, p, k);
    }
  }

  lemma PropagateKeeps(s: Session, i: nat)
    requires i < |s.tasks| && Closed(s.tasks) && SettledFrom(s.tasks, i + 1)
    requires s.tasks[i].status.Joining? ==> !Joined(s.tasks, i)
    ensures Closed(PropagateAt(s, i).tasks) && SettledFrom(PropagateAt(s, i).tasks, i)
    ensures Evolves(s.tasks, PropagateAt(s, i).tasks)
  {
    assert Tree(Parents(s.tasks));
    hide PropagateAt, FailedScope, Closed, Evolves, Joined, Reported;
    var ts, r := s.tasks, PropagateAt(s, i).tasks;
    PropagateIsFailedScope(s, i);
    if HasParent(ts, i) && !Reported(ts[i], ts[ts[i].parent - 1]) {
      var p := ts[i].parent - 1;
      NotReported(ts[i], ts[p]);
      FailedScopeKeeps(ts, p);
      FailedScopeSettlesFrom(ts, p, i);
    } else {
      EvolvesSelf(ts);
      assert SettledAt(ts, i);
    }
  }

  lemma NotReported(c: Task, p: Task)
    requires !Reported(c, p)
    ensures !Terminal(p.status)
  {
  }

  lemma SameLength(ts: seq<Task>, r: seq<Task>)
    requires Evolves(ts, r)
    ensures |r| == |ts|
  {
  }

  lemma EvolvesSelf(ts: seq<Task>)
    ensures Evolves(ts, ts)
  {
  }

  lemma FailedBodyClosedBut(ts: seq<Task>, p: nat, outcome: Status)
    requires Closed(ts) && p < |ts| && !Terminal(ts[p].status)
    requires outcome.Trapped? || outcome.Exited?
    ensures var f := ts[p := Finished(ts[p], outcome, None)];
            ClosedBut(f, p + 1) && Evolves(ts, f)
  {
    var f := ts[p := Finished(ts[p], outcome, None)];
    assert Parents(f) == Parents(ts);
    forall c | HasParent(f, c)
      ensures EdgeOk(f[c], f[f[c].parent - 1]) || f[c].parent == p + 1
    {
      assert HasParent(ts, c);
    }
  }

  lemma EvolvesTwice(a: seq<Task>, b: seq<Task>, c: seq<Task>)
    requires Evolves(a, b) && Evolves(b, c)
    ensures Evolves(a, c)
  {
    forall i | 0 <= i < |a| ensures Evolved(a[i], c[i]) {
      assert Evolved(a[i], b[i]) && Evolved(b[i], c[i]);
    }
  }

  lemma SettleStep(s: Session, i: nat) returns (r: Session)
    requires 0 < i <= |s.tasks| && Closed(s.tasks) && SettledFrom(s.tasks, i)
    ensures |r.tasks| == |s.tasks| && Closed(r.tasks) && SettledFrom(r.tasks, i - 1)
    ensures Evolves(s.tasks, r.tasks) && SettleBelow(s, i) == SettleBelow(r, i - 1)
  {
    JoinKeepsClosed(s, i - 1);
    JoinSettles(s, i - 1);
    var j := JoinAt(s, i - 1);
    PropagateKeeps(j, i - 1);
    r := SettleAt(s, i - 1);
    assert |Parents(r.tasks)| == |s.tasks|;
    EvolvesTwice(s.tasks, j.tasks, r.tasks);
  }

  /** One reverse traversal settles the whole table. */
  lemma {:induction false} SettleWorks(s: Session, i: nat) returns (r: Session)
    requires i <= |s.tasks| && Closed(s.tasks) && SettledFrom(s.tasks, i)
    ensures r == SettleBelow(s, i)
    ensures Quiet(r.tasks) && Evolves(s.tasks, r.tasks)
    decreases i
  {
    hide SettleAt;
    if i == 0 {
      r := s;
    } else {
      var m := SettleStep(s, i);
      r := SettleWorks(m, i - 1);
      EvolvesTwice(s.tasks, m.tasks, r.tasks);
    }
  }
}
