/** What passing deadlines does to every task, and that neither expiry nor settling ever
    makes a body complete or exit. */
module TaskExpiry {
  import opened TaskModel
  import opened TaskProofs
  import opened TaskRuns
  import opened TaskStrike

  // ----- Nobody completes or exits by settling -----

  ghost predicate SameFruit(t: Task, t': Task) {
    t'.outcome.Completed? || t'.outcome.Exited? ==> t'.outcome == t.outcome && t'.result == t.result
  }

  ghost predicate NothingNew(ts: seq<Task>, r: seq<Task>) {
    |r| == |ts| && forall k :: 0 <= k < |ts| ==> SameFruit(ts[k], r[k])
  }

  lemma NothingNewTwice(a: seq<Task>, b: seq<Task>, c: seq<Task>)
    requires NothingNew(a, b) && NothingNew(b, c)
    ensures NothingNew(a, c)
  {
    forall k | 0 <= k < |a| ensures SameFruit(a[k], c[k]) {
      assert SameFruit(a[k], b[k]) && SameFruit(b[k], c[k]);
    }
  }

  lemma CancelNothingNew(s: Session, root: nat, self: bool)
    requires Tree(Parents(s.tasks))
    ensures NothingNew(s.tasks, Cancel(s, root, self).tasks)
  {
    hide Descendant;
  }

  lemma PropagateNothingNew(s: Session, j: nat)
    requires j < |s.tasks| && Tree(Parents(s.tasks))
    ensures NothingNew(s.tasks, PropagateAt(s, j).tasks)
  {
    hide Cancel, NothingNew;
    assert Parents(s.tasks)[j] <= j;
    assert NothingNew(s.tasks, s.tasks) by { NothingNewSelf(s.tasks); }
    if s.tasks[j].parent > 0 {
      var f := FinishBody(s, s.tasks[j].parent - 1, Trapped, None);
      assert Parents(f.tasks) == Parents(s.tasks);
      FinishNothingNew(s, s.tasks[j].parent - 1);
      CancelNothingNew(f, s.tasks[j].parent, false);
      NothingNewTwice(s.tasks, f.tasks, Cancel(f, s.tasks[j].parent, false).tasks);
    }
  }

  lemma FinishNothingNew(s: Session, i: nat)
    requires i < |s.tasks|
    ensures NothingNew(s.tasks, FinishBody(s, i, Trapped, None).tasks)
  {
  }

  lemma SettleAtNothingNew(s: Session, j: nat)
    requires j < |s.tasks| && Tree(Parents(s.tasks))
    ensures NothingNew(s.tasks, SettleAt(s, j).tasks)
  {
    hide PropagateAt, Joined;
    var m := JoinAt(s, j);
    assert Parents(m.tasks) == Parents(s.tasks);
    assert NothingNew(s.tasks, m.tasks);
    hide NothingNew;
    PropagateNothingNew(m, j);
    NothingNewTwice(s.tasks, m.tasks, PropagateAt(m, j).tasks);
  }

  lemma {:induction false} SettleNothingNew(s: Session, pos: nat)
    requires pos <= |s.tasks| && Tree(Parents(s.tasks))
    ensures NothingNew(s.tasks, SettleBelow(s, pos).tasks)
    decreases pos
  {
    hide SettleAt, NothingNew;
    if pos == 0 {
      assert NothingNew(s.tasks, s.tasks) by { NothingNewSelf(s.tasks); }
    } else {
      var m := SettleAt(s, pos - 1);
      assert |Parents(m.tasks)| == |s.tasks|;
      SettleAtNothingNew(s, pos - 1);
      SettleNothingNew(m, pos - 1);
      NothingNewTwice(s.tasks, m.tasks, SettleBelow(s, pos).tasks);
    }
  }

  lemma NothingNewSelf(ts: seq<Task>)
    ensures NothingNew(ts, ts)
  {
  }

  lemma TrappedNothingNew(s: Session, i: nat)
    requires i < |s.tasks| && Tree(Parents(s.tasks))
    ensures NothingNew(s.tasks, EndBody(s, i, Trapped, None).tasks)
  {
    hide SettleBelow, NothingNew, Cancel;
    var f := FinishBody(s, i, Trapped, None);
    assert Parents(f.tasks) == Parents(s.tasks);
    var g := Cancel(f, i + 1, false);
    FinishNothingNew(s, i);
    CancelNothingNew(f, i + 1, false);
    NothingNewTwice(s.tasks, f.tasks, g.tasks);
    SettleNothingNew(g, |g.tasks|);
    NothingNewTwice(s.tasks, g.tasks, EndBody(s, i, Trapped, None).tasks);
  }

  /** A live task does not turn out completed between two quiet tables. */
  lemma {:induction false} NobodyCompletes(ts: seq<Task>, r: seq<Task>, k: nat)
    requires Quiet(ts) && Quiet(r) && NothingNew(ts, r) && Parents(r) == Parents(ts)
    requires k < |ts| && !Terminal(ts[k].status)
    ensures !r[k].status.Completed?
    decreases |ts| - k
  {
    if r[k].status.Completed? {
      assert Coherent(r[k]) && Coherent(ts[k]) && SameFruit(ts[k], r[k]);
      QuietJoining(ts, k);
      var c :| HasParent(ts, c) && ts[c].parent == k + 1 && !Terminal(ts[c].status);
      assert Parents(r)[c] == Parents(ts)[c];
      assert HasParent(r, c);
      NobodyCompletes(ts, r, c);
      assert false;
    }
  }

  // ----- Cancelling what has expired -----

  /** Task `k` is an expired one or below one, among the first `n` tasks. */
  ghost predicate Overdue(ts: seq<Task>, now: nat, n: nat, k: nat)
    requires Tree(Parents(ts)) && n <= |ts| && k < |ts|
  {
    exists a :: 0 <= a < n && Late(ts, now, a, k)
  }

  ghost predicate Late(ts: seq<Task>, now: nat, a: nat, k: nat)
    requires Tree(Parents(ts)) && a < |ts| && k < |ts|
  {
    Expired(ts[a], now) && Descendant(Parents(ts), k + 1, a + 1)
  }

  ghost function Lapsed(ts: seq<Task>, now: nat, n: nat, k: nat): Task
    requires Tree(Parents(ts)) && n <= |ts| && k < |ts|
  {
    if !Terminal(ts[k].status) && Overdue(ts, now, n, k) then Ended(ts[k], Cancelled) else ts[k]
  }

  ghost predicate Lapsing(ts: seq<Task>, now: nat, n: nat, cur: seq<Task>) {
    Tree(Parents(ts)) && n <= |ts| && |cur| == |ts| && forall k :: 0 <= k < |ts| ==> cur[k] == Lapsed(ts, now, n, k)
  }

  lemma LapsingTree(ts: seq<Task>, now: nat, n: nat, cur: seq<Task>)
    requires Lapsing(ts, now, n, cur)
    ensures Parents(cur) == Parents(ts)
  {
    hide Overdue;
    forall k | 0 <= k < |ts| ensures cur[k].parent == ts[k].parent {
    }
  }

  /** The next task has lapsed already exactly when an earlier one took it. */
  lemma LapsedNext(ts: seq<Task>, now: nat, i: nat, k: nat)
    requires Tree(Parents(ts)) && i < |ts| && k < |ts|
    ensures Overdue(ts, now, i + 1, k) <==>
      Overdue(ts, now, i, k) || (Expired(Lapsed(ts, now, i, i), now) && Descendant(Parents(ts), k + 1, i + 1))
  {
    var ps := Parents(ts);
    hide Descendant;
    if Overdue(ts, now, i, k) {
      var a :| 0 <= a < i && Late(ts, now, a, k);
    } else if Late(ts, now, i, k) {
      if Overdue(ts, now, i, i) {
        var a :| 0 <= a < i && Late(ts, now, a, i);
        assert !Late(ts, now, a, k);
        DescendantTwice(ps, k + 1, i + 1, a + 1);
      }
    }
    if Expired(Lapsed(ts, now, i, i), now) && Descendant(ps, k + 1, i + 1) {
      assert Late(ts, now, i, k);
    }
  }

  lemma ExpireOne(s: Session, ts: seq<Task>, i: nat)
    requires i < |ts| && Lapsing(ts, s.now, i, s.tasks)
    ensures Tree(Parents(s.tasks))
    ensures var m := if Expired(s.tasks[i], s.now) then Cancel(s, i + 1, true) else s;
            Lapsing(ts, s.now, i + 1, m.tasks)
  {
    hide Descendant, Overdue;
    LapsingTree(ts, s.now, i, s.tasks);
    var m := if Expired(s.tasks[i], s.now) then Cancel(s, i + 1, true) else s;
    forall k | 0 <= k < |ts| ensures m.tasks[k] == Lapsed(ts, s.now, i + 1, k) {
      LapsedNext(ts, s.now, i, k);
    }
  }

  lemma {:induction false} ExpireLapses(s: Session, ts: seq<Task>, i: nat)
    requires i <= |ts| && Lapsing(ts, s.now, i, s.tasks)
    ensures Tree(Parents(s.tasks)) && Lapsing(ts, s.now, |ts|, ExpireFrom(s, i).tasks)
    decreases |ts| - i
  {
    LapsingTree(ts, s.now, i, s.tasks);
    assert |s.tasks| == |ts|;
    hide Lapsing;
    if i < |ts| {
      ExpireOne(s, ts, i);
      var m := if Expired(s.tasks[i], s.now) then Cancel(s, i + 1, true) else s;
      assert |Parents(m.tasks)| == |ts|;
      ExpireLapses(m, ts, i + 1);
    }
  }

  // ----- Trees without an expired task -----

  /** The tree of `root` is as it was. */
  ghost predicate Untouched(ts: seq<Task>, r: seq<Task>, root: nat)
    requires Tree(Parents(ts))
  {
    |r| == |ts| && forall k :: 0 <= k < |ts| && Root(Parents(ts), k + 1) == root ==> r[k] == ts[k]
  }

  lemma UntouchedWaits(s: Session, ts: seq<Task>, j: nat)
    requires Quiet(ts) && Tree(Parents(ts)) && Parents(s.tasks) == Parents(ts) && j < |ts|
    requires Untouched(ts, s.tasks, Root(Parents(ts), j + 1)) && ts[j].status.Joining?
    ensures !Joined(s.tasks, j)
  {
    hide Quiet;
    QuietJoining(ts, j);
    var c :| HasParent(ts, c) && ts[c].parent == j + 1 && !Terminal(ts[c].status);
    ChildRoot(Parents(ts), c + 1);
    LiveChild(s.tasks, j, c);
  }

  /** A task whose tree is as in a quiet table is settled. */
  lemma UntouchedStays(s: Session, ts: seq<Task>, j: nat)
    requires Quiet(ts) && Tree(Parents(ts)) && Parents(s.tasks) == Parents(ts) && j < |ts|
    requires Untouched(ts, s.tasks, Root(Parents(ts), j + 1))
    ensures SettleAt(s, j) == s
  {
    hide SettleAt, Joined, Root;
    assert s.tasks[j] == ts[j] && SettledAt(ts, j);
    if ts[j].status.Joining? {
      UntouchedWaits(s, ts, j);
    }
    if HasParent(ts, j) {
      ChildRoot(Parents(ts), j + 1);
      LiveOutcome(ts, ts[j].parent - 1);
    }
    SettleAtStays(s, j);
  }

  lemma ChildRoot(ps: seq<nat>, a: nat)
    requires Tree(ps) && 0 < a <= |ps| && ps[a - 1] > 0
    ensures Root(ps, a) == Root(ps, ps[a - 1])
  {
  }

  lemma CancelLocal(ts: seq<Task>, p: nat, root: nat)
    requires Tree(Parents(ts)) && 0 < p <= |ts| && Root(Parents(ts), p) != root
    ensures Untouched(ts, CancelTasks(ts, p, false), root)
  {
    var ps := Parents(ts);
    hide Descendant, Root;
    forall k | 0 <= k < |ts| && Root(ps, k + 1) == root ensures CancelTasks(ts, p, false)[k] == ts[k] {
      if Descendant(ps, k + 1, p) {
        SameRoot(ps, k + 1, p);
      }
    }
  }

  /** Settling a task changes only its own tree. */
  lemma PropagateLocal(s: Session, j: nat, root: nat)
    requires Tree(Parents(s.tasks)) && j < |s.tasks| && Root(Parents(s.tasks), j + 1) != root
    ensures Untouched(s.tasks, PropagateAt(s, j).tasks, root)
  {
    var ps := Parents(s.tasks);
    assert ps[j] <= j;
    if s.tasks[j].parent > 0 {
      var p := s.tasks[j].parent;
      ChildRoot(ps, j + 1);
      var f := FinishBody(s, p - 1, Trapped, None);
      assert Parents(f.tasks) == ps;
      hide Root, Descendant;
      CancelLocal(f.tasks, p, root);
    }
  }

  lemma SettleAtLocal(s: Session, ts: seq<Task>, j: nat, root: nat)
    requires Quiet(ts) && Tree(Parents(ts)) && Parents(s.tasks) == Parents(ts) && j < |ts|
    requires Untouched(ts, s.tasks, root)
    ensures Untouched(ts, SettleAt(s, j).tasks, root)
  {
    if Root(Parents(ts), j + 1) == root {
      hide SettleAt;
      UntouchedStays(s, ts, j);
    } else {
      hide Quiet, PropagateAt, Root, Joined;
      var m := JoinAt(s, j);
      assert Parents(m.tasks) == Parents(ts);
      PropagateLocal(m, j, root);
    }
  }

  lemma {:induction false} SettleLocal(s: Session, ts: seq<Task>, pos: nat, root: nat)
    requires Quiet(ts) && Tree(Parents(ts)) && Parents(s.tasks) == Parents(ts) && pos <= |ts|
    requires Untouched(ts, s.tasks, root)
    ensures Untouched(ts, SettleBelow(s, pos).tasks, root)
    decreases pos
  {
    hide Quiet, SettleAt, Untouched;
    assert |Parents(s.tasks)| == |ts|;
    if pos > 0 {
      SettleAtLocal(s, ts, pos - 1, root);
      SettleLocal(SettleAt(s, pos - 1), ts, pos - 1, root);
    }
  }

  // ----- The effect of expiry -----

  /** Some task of the tree of `k` has expired. */
  ghost predicate TreeLate(ts: seq<Task>, now: nat, k: nat)
    requires Tree(Parents(ts)) && k < |ts|
  {
    exists a :: 0 <= a < |ts| && LateInTree(ts, now, a, k)
  }

  ghost predicate LateInTree(ts: seq<Task>, now: nat, a: nat, k: nat)
    requires Tree(Parents(ts)) && a < |ts| && k < |ts|
  {
    Expired(ts[a], now) && InTree(ts, a, k)
  }

  /** A finished task and a tree without an expired task stay as they are. In any other tree
      everything ends unsuccessfully; an expired task and all below it are cancelled. */
  ghost predicate Expires(ts: seq<Task>, now: nat, r: seq<Task>)
    requires Tree(Parents(ts))
  {
    |r| == |ts| && forall k :: 0 <= k < |ts| ==>
      if Terminal(ts[k].status) || !TreeLate(ts, now, k) then r[k] == ts[k]
      else
        && Failed(r[k].status) && r[k] == Ended(ts[k], r[k].status)
        && (Overdue(ts, now, |ts|, k) ==> r[k].status.Cancelled?)
  }

  /** A failure has reached the root of its tree. */
  lemma {:induction false} FailedUp(r: seq<Task>, a: nat)
    requires Quiet(r) && Tree(Parents(r)) && a < |r| && Failed(r[a].status)
    ensures var root := Root(Parents(r), a + 1); 0 < root <= a + 1 && Terminal(r[root - 1].status)
    decreases a
  {
    RootBelow(Parents(r), a + 1);
    if r[a].parent > 0 {
      assert HasParent(r, a) && SettledAt(r, a) && Coherent(r[r[a].parent - 1]);
      var p := r[a].parent - 1;
      LiveFailed(r, p);
      assert Failed(r[p].status);
      hide Quiet;
      FailedUp(r, p);
    }
  }

  lemma LiveFailed(r: seq<Task>, p: nat)
    requires Quiet(r) && p < |r| && Failed(r[p].outcome)
    ensures Terminal(r[p].status)
  {
    if !Terminal(r[p].status) {
      LiveIn(r, p);
    }
  }

  lemma TreeUntouched(ts: seq<Task>, now: nat, e: seq<Task>, k: nat)
    requires Lapsing(ts, now, |ts|, e) && k < |ts| && !TreeLate(ts, now, k)
    ensures Untouched(ts, e, Root(Parents(ts), k + 1))
  {
    var ps := Parents(ts);
    hide Descendant, Root;
    forall j | 0 <= j < |ts| && Root(ps, j + 1) == Root(ps, k + 1) ensures e[j] == ts[j] {
      if Overdue(ts, now, |ts|, j) {
        var a :| 0 <= a < |ts| && Late(ts, now, a, j);
        assert !LateInTree(ts, now, a, k);
        SameRoot(ps, j + 1, a + 1);
      }
    }
  }

  lemma LateCancelled(ts: seq<Task>, now: nat, e: seq<Task>, r: seq<Task>, a: nat)
    requires Lapsing(ts, now, |ts|, e) && Evolves(e, r) && a < |ts| && Expired(ts[a], now)
    ensures r[a].status.Cancelled?
  {
    ChildStep(Parents(ts), a + 1, a + 1);
    hide Descendant;
    assert Late(ts, now, a, a);
    assert e[a] == Lapsed(ts, now, |ts|, a);
    assert Evolved(e[a], r[a]);
  }

  /** One failure in a quiet tree finishes all of it. */
  lemma FailedTree(r: seq<Task>, a: nat, k: nat)
    requires Quiet(r) && Tree(Parents(r)) && a < |r| && k < |r| && Failed(r[a].status) && InTree(r, a, k)
    ensures Terminal(r[k].status)
  {
    hide Quiet, Descendant, Root;
    FailedUp(r, a);
    RootBelow(Parents(r), k + 1);
    FinishedBelow(r, Root(Parents(r), a + 1) - 1, k);
  }

  /** A tree with an expired task is finished. */
  lemma TreeFinished(ts: seq<Task>, now: nat, e: seq<Task>, r: seq<Task>, k: nat)
    requires Lapsing(ts, now, |ts|, e) && Quiet(r) && Evolves(e, r) && Parents(r) == Parents(ts)
    requires k < |ts| && TreeLate(ts, now, k)
    ensures |r| == |ts| && Terminal(r[k].status)
  {
    assert |Parents(r)| == |ts|;
    var a :| 0 <= a < |ts| && LateInTree(ts, now, a, k);
    hide Quiet, Evolves, Root, Lapsing;
    LateCancelled(ts, now, e, r, a);
    FailedTree(r, a, k);
  }

  lemma ExpiresAt(ts: seq<Task>, now: nat, e: seq<Task>, r: seq<Task>, k: nat)
    requires Quiet(ts) && Lapsing(ts, now, |ts|, e) && Quiet(r) && Evolves(ts, r) && Evolves(e, r)
    requires Parents(r) == Parents(ts) && NothingNew(ts, r) && k < |ts| && TreeLate(ts, now, k)
    requires !Terminal(ts[k].status)
    ensures Failed(r[k].status) && r[k] == Ended(ts[k], r[k].status)
    ensures Overdue(ts, now, |ts|, k) ==> r[k].status.Cancelled?
  {
    assert Evolved(ts[k], r[k]) && Evolved(e[k], r[k]) && Coherent(r[k]);
    assert e[k] == Lapsed(ts, now, |ts|, k);
    hide Quiet, Evolves, Lapsing, Overdue, TreeLate;
    TreeFinished(ts, now, e, r, k);
    NobodyCompletes(ts, r, k);
  }

  /** Expiry followed by settling has exactly the effect `Expires` on a quiet table. */
  lemma ExpiryTakes(s: Session) returns (r: Session)
    requires Quiet(s.tasks) && Balanced(s)
    ensures Tree(Parents(s.tasks)) && r == Settle(ExpireFrom(s, 0)) && Expires(s.tasks, s.now, r.tasks)
  {
    var ts := s.tasks;
    QuietTree(ts);
    assert Lapsing(ts, s.now, 0, ts);
    ExpireLapses(s, ts, 0);
    assert NoneExpired(ts[..0], s.now);
    var e := ExpireWorks(s, 0);
    r := Settled(e);
    hide Quiet, Lapsing, Settle, ExpireFrom, Evolves, NothingNew, Overdue, TreeLate;
    EvolvesTwice(ts, e.tasks, r.tasks);
    LapsingTree(ts, s.now, |ts|, e.tasks);
    assert Parents(r.tasks) == Parents(ts);
    assert NothingNew(ts, r.tasks) by { ExpiryNothingNew(s, e, r); }
    assert Expires(ts, s.now, r.tasks) by { ExpiresAll(s, e, r); }
  }

  lemma ExpiryNothingNew(s: Session, e: Session, r: Session)
    requires Lapsing(s.tasks, s.now, |s.tasks|, e.tasks) && Tree(Parents(e.tasks)) && r == Settle(e)
    ensures NothingNew(s.tasks, r.tasks)
  {
    assert NothingNew(s.tasks, e.tasks) by { hide Overdue; }
    hide NothingNew, Lapsing;
    SettleNothingNew(e, |e.tasks|);
    NothingNewTwice(s.tasks, e.tasks, r.tasks);
  }

  lemma ExpiresAll(s: Session, e: Session, r: Session)
    requires Quiet(s.tasks) && Lapsing(s.tasks, s.now, |s.tasks|, e.tasks) && Parents(e.tasks) == Parents(s.tasks)
    requires Tree(Parents(s.tasks)) && r == Settle(e) && Parents(r.tasks) == Parents(s.tasks)
    requires Quiet(r.tasks) && Evolves(s.tasks, r.tasks) && Evolves(e.tasks, r.tasks) && NothingNew(s.tasks, r.tasks)
    ensures Expires(s.tasks, s.now, r.tasks)
  {
    var ts, now := s.tasks, s.now;
    assert |Parents(e.tasks)| == |ts| && |Parents(r.tasks)| == |ts|;
    hide Quiet, Lapsing, NothingNew, Overdue, TreeLate, SettleBelow, Root;
    forall k | 0 <= k < |ts|
      ensures if Terminal(ts[k].status) || !TreeLate(ts, now, k) then r.tasks[k] == ts[k]
              else
                && Failed(r.tasks[k].status) && r.tasks[k] == Ended(ts[k], r.tasks[k].status)
                && (Overdue(ts, now, |ts|, k) ==> r.tasks[k].status.Cancelled?)
    {
      assert Evolved(ts[k], r.tasks[k]);
      if !TreeLate(ts, now, k) {
        TreeUntouched(ts, now, e.tasks, k);
        SettleLocal(e, ts, |ts|, Root(Parents(ts), k + 1));
      } else if !Terminal(ts[k].status) {
        ExpiresAt(ts, now, e.tasks, r.tasks, k);
      }
    }
  }
}
