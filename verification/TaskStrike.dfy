/** Exactly what one task that ends does to every other task. A failure takes the whole tree with
    it: ancestors trap, all other live tasks of the tree are cancelled. A completion moves on nothing
    but joining ancestors that were waiting for it. */
module TaskStrike {
  import opened TaskModel
  import opened TaskProofs
  import opened TaskRuns

  // ----- Trees -----

  /** The root of the tree that a slot belongs to. */
  ghost function Root(ps: seq<nat>, slot: nat): nat
    requires Tree(ps) && slot <= |ps|
    decreases slot
  {
    if slot == 0 || ps[slot - 1] == 0 then slot else Root(ps, ps[slot - 1])
  }

  lemma {:induction false} RootBelow(ps: seq<nat>, slot: nat)
    requires Tree(ps) && 0 < slot <= |ps|
    ensures 0 < Root(ps, slot) <= slot && ps[Root(ps, slot) - 1] == 0 && Descendant(ps, slot, Root(ps, slot))
    decreases slot
  {
    if ps[slot - 1] != 0 {
      RootBelow(ps, ps[slot - 1]);
    }
  }

  lemma {:induction false} SameRoot(ps: seq<nat>, a: nat, b: nat)
    requires Tree(ps) && 0 < a <= |ps| && 0 < b <= |ps| && Descendant(ps, a, b)
    ensures Root(ps, a) == Root(ps, b)
    decreases a
  {
    if a != b {
      SameRoot(ps, ps[a - 1], b);
    }
  }

  lemma {:induction false} DescendantTwice(ps: seq<nat>, a: nat, b: nat, c: nat)
    requires Tree(ps) && a <= |ps| && b <= |ps| && Descendant(ps, a, b) && Descendant(ps, b, c) && c > 0
    ensures Descendant(ps, a, c)
    decreases a
  {
    DescendantIsLater(ps, b, c);
    if a != b && a != c {
      DescendantTwice(ps, ps[a - 1], b, c);
    }
  }

  /** Two slots on one parent chain: one is above the other. */
  lemma {:induction false} ChainOrder(ps: seq<nat>, a: nat, b: nat, c: nat)
    requires Tree(ps) && a <= |ps| && 0 < b <= |ps| && 0 < c <= |ps| && Descendant(ps, a, b) && Descendant(ps, a, c)
    ensures Descendant(ps, b, c) || Descendant(ps, c, b)
    decreases a
  {
    if a != b && a != c {
      ChainOrder(ps, ps[a - 1], b, c);
    }
  }

  lemma DescendantBoth(ps: seq<nat>, a: nat, b: nat)
    requires Tree(ps) && a <= |ps| && b <= |ps| && Descendant(ps, a, b) && Descendant(ps, b, a)
    ensures a == b
  {
    DescendantIsLater(ps, a, b);
    DescendantIsLater(ps, b, a);
  }

  /** A child's slot, its parent's slot, and a third one. */
  lemma ChildStep(ps: seq<nat>, a: nat, b: nat)
    requires Tree(ps) && 0 < a <= |ps| && 0 < b
    ensures a != b ==> (Descendant(ps, a, b) <==> Descendant(ps, ps[a - 1], b))
    ensures Descendant(ps, a, a)
  {
  }

  // ----- Quiet tables -----

  /** A live task of a quiet table has not failed and its parent is live. */
  lemma LiveIn(ts: seq<Task>, i: nat)
    requires Quiet(ts) && i < |ts| && !Terminal(ts[i].status)
    ensures !ts[i].outcome.Trapped? && !ts[i].outcome.Exited? && !Failed(ts[i].outcome)
    ensures ts[i].parent > 0 ==> ts[i].parent <= i && !Terminal(ts[ts[i].parent - 1].status)
  {
    assert Coherent(ts[i]);
    if ts[i].status.Joining? {
      QuietJoining(ts, i);
    }
    if ts[i].parent > 0 {
      assert Parents(ts)[i] <= i;
      assert HasParent(ts, i);
    }
  }

  lemma LiveOutcome(ts: seq<Task>, k: nat)
    requires Quiet(ts) && k < |ts|
    ensures Terminal(ts[k].status) || !ts[k].outcome.Cancelled?
  {
    if !Terminal(ts[k].status) {
      LiveIn(ts, k);
    }
  }

  lemma {:induction false} LiveAncestors(ts: seq<Task>, i: nat, h: nat)
    requires Quiet(ts) && i < |ts| && !Terminal(ts[i].status) && 0 < h && Descendant(Parents(ts), i + 1, h)
    ensures h <= i + 1 && !Terminal(ts[h - 1].status)
    decreases i
  {
    assert Tree(Parents(ts));
    hide Quiet;
    DescendantIsLater(Parents(ts), i + 1, h);
    if h != i + 1 {
      LiveIn(ts, i);
      LiveAncestors(ts, ts[i].parent - 1, h);
    }
  }

  lemma QuietTree(ts: seq<Task>)
    requires Quiet(ts)
    ensures Tree(Parents(ts))
  {
  }

  /** The failure of `c`, if any, has reached its parent, which is not half cancelled. */
  ghost predicate Heard(c: Task, p: Task) {
    Reported(c, p) && (Terminal(p.status) || !p.outcome.Cancelled?)
  }

  /** Settling task `j` changes nothing if it is not about to join and its failure is reported. */
  lemma SettleAtStays(s: Session, j: nat)
    requires j < |s.tasks| && Tree(Parents(s.tasks))
    requires s.tasks[j].status.Joining? ==> !Joined(s.tasks, j)
    requires HasParent(s.tasks, j) ==> Heard(s.tasks[j], s.tasks[s.tasks[j].parent - 1])
    ensures SettleAt(s, j) == s
  {
    assert Parents(s.tasks)[j] <= j;
  }

  // ----- A failure strikes the tree -----

  ghost function Ended(t: Task, st: Status): Task {
    t.(status := st, outcome := st, result := None, pending := false, queued := false)
  }

  /** The status that task `k` of the tree ends with when task `i` fails with status `st`. */
  ghost function Blow(ps: seq<nat>, i: nat, st: Status, k: nat): Status
    requires Tree(ps) && i < |ps| && k < |ps|
  {
    if k == i then st else if Descendant(ps, i + 1, k + 1) then Trapped else Cancelled
  }

  ghost predicate InTree(ts: seq<Task>, i: nat, k: nat)
    requires Tree(Parents(ts)) && i < |ts| && k < |ts|
  {
    Root(Parents(ts), k + 1) == Root(Parents(ts), i + 1)
  }

  /** The task `k` after task `i` has failed with status `st`. */
  ghost function Struck(ts: seq<Task>, i: nat, st: Status, k: nat): Task
    requires Tree(Parents(ts)) && i < |ts| && k < |ts|
  {
    if Terminal(ts[k].status) || !InTree(ts, i, k) then ts[k] else Ended(ts[k], Blow(Parents(ts), i, st, k))
  }

  ghost predicate Strikes(ts: seq<Task>, i: nat, st: Status, r: seq<Task>)
    requires Tree(Parents(ts)) && i < |ts|
  {
    |r| == |ts| && forall k :: 0 <= k < |ts| ==> r[k] == Struck(ts, i, st, k)
  }

  ghost predicate Below(ts: seq<Task>, h: nat, k: nat)
    requires Tree(Parents(ts)) && k < |ts|
  {
    !Terminal(ts[k].status) && Descendant(Parents(ts), k + 1, h)
  }

  /** Struck, or about to be once its children are seen to be terminal. */
  ghost predicate Falling(t: Task, e: Task) {
    t == e || (t == e.(status := Joining) && !e.outcome.Cancelled?)
  }

  ghost predicate FrontAt(ts: seq<Task>, i: nat, st: Status, h: nat, k: nat, t: Task)
    requires Tree(Parents(ts)) && i < |ts| && k < |ts|
  {
    if !Below(ts, h, k) then t == ts[k]
    else
      var e := Ended(ts[k], Blow(Parents(ts), i, st, k));
      if k + 1 == h then Falling(t, e) else t == e
  }

  /** In the middle of the traversal: everything below slot `h` on the chain of `i` is struck. */
  ghost predicate Front(ts: seq<Task>, i: nat, st: Status, h: nat, cur: seq<Task>) {
    && Quiet(ts) && Tree(Parents(ts)) && i < |ts| && !Terminal(ts[i].status) && Failed(st)
    && 0 < h <= |ts| && Descendant(Parents(ts), i + 1, h)
    && |cur| == |ts| && (forall k :: 0 <= k < |ts| ==> FrontAt(ts, i, st, h, k, cur[k]))
  }

  lemma FrontTree(ts: seq<Task>, i: nat, st: Status, h: nat, cur: seq<Task>)
    requires Front(ts, i, st, h, cur)
    ensures Parents(cur) == Parents(ts) && Tree(Parents(cur)) && 0 < h <= i + 1
    ensures i < |ts| && |cur| == |ts| && Quiet(ts) && !Terminal(ts[i].status) && Failed(st)
    ensures Descendant(Parents(ts), i + 1, h)
  {
    DescendantIsLater(Parents(ts), i + 1, h);
    forall k | 0 <= k < |ts|
      ensures cur[k].parent == ts[k].parent
    {
      assert FrontAt(ts, i, st, h, k, cur[k]);
    }
  }

  lemma NoCancelledOutcome(ts: seq<Task>, i: nat, st: Status, h: nat, cur: seq<Task>, k: nat)
    requires Front(ts, i, st, h, cur) && k < |cur|
    ensures Terminal(cur[k].status) || !cur[k].outcome.Cancelled?
  {
    assert FrontAt(ts, i, st, h, k, cur[k]);
    hide Quiet, Descendant;
    if !Terminal(ts[k].status) {
      LiveIn(ts, k);
    }
  }

  lemma FrontOne(ts: seq<Task>, i: nat, st: Status, h: nat, cur: seq<Task>, k: nat)
    requires Front(ts, i, st, h, cur) && k < |ts|
    ensures FrontAt(ts, i, st, h, k, cur[k])
  {
  }

  lemma AboveWaits(ts: seq<Task>, i: nat, st: Status, h: nat, cur: seq<Task>, j: nat)
    requires Front(ts, i, st, h, cur) && h <= j < |ts| && cur[j].status.Joining?
    ensures !Joined(cur, j)
  {
    hide Front, Quiet, Descendant;
    FrontTree(ts, i, st, h, cur);
    FrontOne(ts, i, st, h, cur, j);
    assert cur[j] == ts[j];
    QuietJoining(ts, j);
    var c :| HasParent(ts, c) && ts[c].parent == j + 1 && !Terminal(ts[c].status);
    FrontOne(ts, i, st, h, cur, c);
    DescendantStep(ts, c, h);
    assert cur[c] == ts[c];
  }

  lemma AboveReported(ts: seq<Task>, i: nat, st: Status, h: nat, cur: seq<Task>, j: nat)
    requires Front(ts, i, st, h, cur) && h <= j < |ts| && HasParent(ts, j)
    ensures Reported(cur[j], cur[ts[j].parent - 1])
  {
    var p := ts[j].parent - 1;
    assert FrontAt(ts, i, st, h, j, cur[j]) && FrontAt(ts, i, st, h, p, cur[p]);
    assert SettledAt(ts, j);
    DescendantStep(ts, j, h);
    if !Terminal(ts[j].status) {
      LiveIn(ts, j);
    }
    if !Terminal(ts[p].status) {
      LiveIn(ts, p);
    }
  }

  /** Tasks above the front are settled already. */
  lemma SettleAbove(s: Session, ts: seq<Task>, i: nat, st: Status, h: nat, j: nat)
    requires Front(ts, i, st, h, s.tasks) && h <= j < |ts|
    ensures Tree(Parents(s.tasks)) && SettleAt(s, j) == s
  {
    FrontTree(ts, i, st, h, s.tasks);
    assert Parents(s.tasks)[j] == Parents(ts)[j];
    if s.tasks[j].status.Joining? {
      AboveWaits(ts, i, st, h, s.tasks, j);
    }
    if HasParent(s.tasks, j) {
      AboveReported(ts, i, st, h, s.tasks, j);
      NoCancelledOutcome(ts, i, st, h, s.tasks, ts[j].parent - 1);
    }
    hide Front, SettleAt, Joined;
    SettleAtStays(s, j);
  }

  // ----- The front itself -----

  /** The front with its own task finished. */
  ghost predicate FrontDone(ts: seq<Task>, i: nat, st: Status, h: nat, cur: seq<Task>) {
    Front(ts, i, st, h, cur) && cur[h - 1] == Ended(ts[h - 1], Blow(Parents(ts), i, st, h - 1))
  }

  lemma FrontChildren(ts: seq<Task>, i: nat, st: Status, h: nat, cur: seq<Task>)
    requires Front(ts, i, st, h, cur)
    ensures h <= |cur| && Joined(cur, h - 1)
  {
    hide Front, Quiet, Descendant;
    FrontTree(ts, i, st, h, cur);
    forall c | h - 1 < c < |cur| && cur[c].parent == h ensures Terminal(cur[c].status) {
      FrontOne(ts, i, st, h, cur, c);
      assert Parents(cur)[c] == Parents(ts)[c];
      ChildStep(Parents(ts), c + 1, h);
      ChildStep(Parents(ts), h, h);
    }
  }

  lemma FrontJoins(s: Session, ts: seq<Task>, i: nat, st: Status, h: nat)
    requires Front(ts, i, st, h, s.tasks)
    ensures FrontDone(ts, i, st, h, JoinAt(s, h - 1).tasks)
  {
    hide Quiet, Descendant, Joined;
    FrontTree(ts, i, st, h, s.tasks);
    FrontChildren(ts, i, st, h, s.tasks);
    LiveAncestors(ts, i, h);
    ChildStep(Parents(ts), h, h);
    var r := JoinAt(s, h - 1).tasks;
    forall k | 0 <= k < |ts| ensures FrontAt(ts, i, st, h, k, r[k]) {
      assert FrontAt(ts, i, st, h, k, s.tasks[k]);
    }
  }

  /** What is below the parent of `h` but not below `h` is not on a chain through `h`. */
  lemma OffChain(ps: seq<nat>, a: nat, h: nat, k: nat)
    requires Tree(ps) && a <= |ps| && 0 < h <= |ps| && 0 < k <= |ps| && Descendant(ps, a, h)
    requires ps[h - 1] > 0 && k != ps[h - 1] && Descendant(ps, k, ps[h - 1]) && !Descendant(ps, k, h)
    ensures !Descendant(ps, a, k)
  {
    ChildStep(ps, h, k);
    ChildStep(ps, h, h);
    hide Descendant;
    if Descendant(ps, a, k) {
      ChainOrder(ps, a, h, k);
      DescendantBoth(ps, ps[h - 1], k);
    }
  }

  /** A failed task and what its failure does to another one. */
  lemma FailedAt(cur: seq<Task>, p: nat, k: nat)
    requires Tree(Parents(cur)) && 0 < p <= |cur| && k < |cur|
    ensures var f := cur[p - 1 := Finished(cur[p - 1], Trapped, None)];
            && Parents(f) == Parents(cur) && |CancelTasks(f, p, false)| == |cur|
            && CancelTasks(f, p, false)[k] ==
                 if k + 1 == p then Finished(cur[k], Trapped, None)
                 else if !Terminal(cur[k].status) && Descendant(Parents(cur), k + 1, p) then CancelledTask(cur[k])
                 else cur[k]
  {
    var f := cur[p - 1 := Finished(cur[p - 1], Trapped, None)];
    assert Parents(f) == Parents(cur);
  }

  lemma FrontParent(ts: seq<Task>, i: nat, st: Status, h: nat, cur: seq<Task>)
    requires Front(ts, i, st, h, cur) && ts[h - 1].parent > 0
    ensures var ps, p := Parents(ts), ts[h - 1].parent;
            && p < h && ps[h - 1] == p && p != i + 1 && !Terminal(ts[p - 1].status) && cur[p - 1] == ts[p - 1]
            && Descendant(ps, h, p) && Descendant(ps, i + 1, p) && Descendant(ps, p, p)
            && !Failed(ts[p - 1].outcome)
  {
    var ps, p := Parents(ts), ts[h - 1].parent;
    FrontTree(ts, i, st, h, cur);
    LiveAncestors(ts, i, h);
    LiveIn(ts, h - 1);
    LiveIn(ts, p - 1);
    ChildStep(ps, h, p);
    ChildStep(ps, p, p);
    assert FrontAt(ts, i, st, h, p - 1, cur[p - 1]);
    hide Quiet, Descendant;
    DescendantTwice(ps, i + 1, h, p);
    if Descendant(ps, p, h) {
      DescendantIsLater(ps, p, h);
    }
  }

  /** The task record `c` after the front has moved from `h` to its parent `p`. */
  ghost function Moved(ts: seq<Task>, p: nat, k: nat, c: Task): Task
    requires Tree(Parents(ts)) && k < |ts|
  {
    if k + 1 == p then Finished(c, Trapped, None)
    else if !Terminal(c.status) && Descendant(Parents(ts), k + 1, p) then CancelledTask(c)
    else c
  }

  lemma MovedAt(ts: seq<Task>, i: nat, st: Status, h: nat, p: nat, k: nat, c: Task)
    requires Tree(Parents(ts)) && i < |ts| && k < |ts| && 0 < h <= |ts| && Failed(st)
    requires var ps := Parents(ts);
             0 < p && p == ps[h - 1] && Descendant(ps, i + 1, h) && Descendant(ps, h, p) && Descendant(ps, i + 1, p)
    requires FrontAt(ts, i, st, h, k, c)
    requires k + 1 == h ==> c == Ended(ts[k], Blow(Parents(ts), i, st, k))
    requires k + 1 == p ==> c == ts[k] && !Terminal(ts[k].status) && k != i
    ensures FrontAt(ts, i, st, p, k, Moved(ts, p, k, c))
  {
    var ps := Parents(ts);
    hide Parents;
    if k + 1 == p {
      ChildStep(ps, p, p);
    } else if Descendant(ps, k + 1, h) {
      hide Descendant;
      DescendantTwice(ps, k + 1, h, p);
    } else if Descendant(ps, k + 1, p) {
      hide Descendant;
      OffChain(ps, i + 1, h, k + 1);
    }
  }

  lemma FrontMovesAt(ts: seq<Task>, i: nat, st: Status, h: nat, cur: seq<Task>, k: nat)
    requires FrontDone(ts, i, st, h, cur) && ts[h - 1].parent > 0 && k < |ts|
    ensures FrontAt(ts, i, st, ts[h - 1].parent, k, Moved(ts, ts[h - 1].parent, k, cur[k]))
  {
    FrontParent(ts, i, st, h, cur);
    assert FrontAt(ts, i, st, h, k, cur[k]);
    hide Quiet, Descendant, FrontAt;
    MovedAt(ts, i, st, h, ts[h - 1].parent, k, cur[k]);
  }

  lemma PropagatedTasks(s: Session, j: nat, p: nat)
    requires j < |s.tasks| && Tree(Parents(s.tasks)) && s.tasks[j].parent == p > 0 && Failed(s.tasks[j].status)
    requires p <= j && !Terminal(s.tasks[p - 1].status) && !Failed(s.tasks[p - 1].outcome)
    ensures |PropagateAt(s, j).tasks| == |s.tasks|
    ensures forall k :: 0 <= k < |s.tasks| ==> PropagateAt(s, j).tasks[k] == Moved(s.tasks, p, k, s.tasks[k])
  {
    forall k | 0 <= k < |s.tasks|
      ensures |PropagateAt(s, j).tasks| == |s.tasks| && PropagateAt(s, j).tasks[k] == Moved(s.tasks, p, k, s.tasks[k])
    {
      FailedAt(s.tasks, p, k);
    }
  }

  /** A finished front passes to the parent and takes the rest of the parent's tree. */
  lemma FrontMoves(s: Session, ts: seq<Task>, i: nat, st: Status, h: nat)
    requires FrontDone(ts, i, st, h, s.tasks) && ts[h - 1].parent > 0
    ensures Tree(Parents(s.tasks)) && ts[h - 1].parent < h
    ensures Front(ts, i, st, ts[h - 1].parent, PropagateAt(s, h - 1).tasks)
  {
    var p := ts[h - 1].parent;
    FrontTree(ts, i, st, h, s.tasks);
    FrontParent(ts, i, st, h, s.tasks);
    assert Parents(s.tasks)[h - 1] == Parents(ts)[h - 1];
    assert Failed(s.tasks[h - 1].status);
    hide PropagateAt, Quiet, Descendant, FrontAt;
    PropagatedTasks(s, h - 1, p);
    var r := PropagateAt(s, h - 1).tasks;
    forall k | 0 <= k < |ts| ensures FrontAt(ts, i, st, p, k, r[k]) {
      FrontMovesAt(ts, i, st, h, s.tasks, k);
      assert Moved(s.tasks, p, k, s.tasks[k]) == Moved(ts, p, k, s.tasks[k]);
    }
  }

  // ----- The root -----

  lemma TreeOfRoot(ps: seq<nat>, a: nat, h: nat, k: nat)
    requires Tree(ps) && 0 < h <= |ps| && ps[h - 1] == 0 && 0 < a <= |ps| && Descendant(ps, a, h) && 0 < k <= |ps|
    ensures Root(ps, k) == Root(ps, a) <==> Descendant(ps, k, h)
  {
    SameRoot(ps, a, h);
    RootBelow(ps, k);
    if Descendant(ps, k, h) {
      SameRoot(ps, k, h);
    }
  }

  /** A front that has finished the root has struck the tree. */
  lemma RootStrikes(ts: seq<Task>, i: nat, st: Status, h: nat, cur: seq<Task>)
    requires FrontDone(ts, i, st, h, cur) && ts[h - 1].parent == 0
    ensures Strikes(ts, i, st, cur)
  {
    hide Quiet, Descendant, Root;
    FrontTree(ts, i, st, h, cur);
    forall k | 0 <= k < |ts| ensures cur[k] == Struck(ts, i, st, k) {
      assert FrontAt(ts, i, st, h, k, cur[k]);
      TreeOfRoot(Parents(ts), i + 1, h, k + 1);
    }
  }

  lemma RootQuiet(s: Session, ts: seq<Task>, i: nat, st: Status, h: nat, j: nat)
    requires FrontDone(ts, i, st, h, s.tasks) && ts[h - 1].parent == 0 && j < h
    ensures Tree(Parents(s.tasks)) && SettleAt(s, j) == s
  {
    FrontTree(ts, i, st, h, s.tasks);
    assert Parents(s.tasks)[j] == Parents(ts)[j];
    if s.tasks[j].status.Joining? {
      RootWaits(ts, i, st, h, s.tasks, j);
    }
    if HasParent(s.tasks, j) {
      RootReported(ts, i, st, h, s.tasks, j);
      NoCancelledOutcome(ts, i, st, h, s.tasks, ts[j].parent - 1);
    }
    hide FrontDone, SettleAt, Joined;
    SettleAtStays(s, j);
  }

  lemma NotBelow(ts: seq<Task>, h: nat, j: nat)
    requires Tree(Parents(ts)) && j + 1 < h && j < |ts|
    ensures !Below(ts, h, j)
  {
    if Below(ts, h, j) {
      DescendantIsLater(Parents(ts), j + 1, h);
    }
  }

  lemma RootWaits(ts: seq<Task>, i: nat, st: Status, h: nat, cur: seq<Task>, j: nat)
    requires FrontDone(ts, i, st, h, cur) && ts[h - 1].parent == 0 && j < h && cur[j].status.Joining?
    ensures !Joined(cur, j)
  {
    hide Descendant;
    FrontTree(ts, i, st, h, cur);
    assert j + 1 < h;
    NotBelow(ts, h, j);
    assert FrontAt(ts, i, st, h, j, cur[j]);
    QuietJoining(ts, j);
    var c :| HasParent(ts, c) && ts[c].parent == j + 1 && !Terminal(ts[c].status);
    assert FrontAt(ts, i, st, h, c, cur[c]);
    hide Quiet;
    DescendantStep(ts, c, h);
    assert cur[c] == ts[c];
  }

  lemma RootReported(ts: seq<Task>, i: nat, st: Status, h: nat, cur: seq<Task>, j: nat)
    requires FrontDone(ts, i, st, h, cur) && ts[h - 1].parent == 0 && j < h && HasParent(ts, j)
    ensures Reported(cur[j], cur[ts[j].parent - 1])
  {
    var p := ts[j].parent - 1;
    NotBelow(ts, h, j);
    NotBelow(ts, h, p);
    assert FrontAt(ts, i, st, h, j, cur[j]) && FrontAt(ts, i, st, h, p, cur[p]);
    assert SettledAt(ts, j);
  }

  lemma {:induction false} RootStays(s: Session, ts: seq<Task>, i: nat, st: Status, h: nat, pos: nat)
    requires FrontDone(ts, i, st, h, s.tasks) && ts[h - 1].parent == 0 && pos <= h
    ensures Tree(Parents(s.tasks)) && SettleBelow(s, pos) == s
    decreases pos
  {
    hide Front, Quiet, SettleAt, Descendant;
    FrontTree(ts, i, st, h, s.tasks);
    if pos > 0 {
      RootQuiet(s, ts, i, st, h, pos - 1);
      RootStays(s, ts, i, st, h, pos - 1);
    }
  }

  // ----- The whole traversal -----

  lemma FrontStep(s: Session, ts: seq<Task>, i: nat, st: Status, h: nat) returns (r: Session)
    requires Front(ts, i, st, h, s.tasks)
    ensures Tree(Parents(s.tasks)) && r == SettleAt(s, h - 1) && |r.tasks| == |ts|
    ensures ts[h - 1].parent == 0 ==> FrontDone(ts, i, st, h, r.tasks)
    ensures ts[h - 1].parent > 0 ==> ts[h - 1].parent < h && Front(ts, i, st, ts[h - 1].parent, r.tasks)
  {
    FrontTree(ts, i, st, h, s.tasks);
    FrontJoins(s, ts, i, st, h);
    var j := JoinAt(s, h - 1);
    FrontTree(ts, i, st, h, j.tasks);
    assert Parents(j.tasks)[h - 1] == Parents(ts)[h - 1];
    r := PropagateAt(j, h - 1);
    if ts[h - 1].parent > 0 {
      FrontMoves(j, ts, i, st, h);
    } else {
      assert r == j;
    }
  }

  /** The reverse traversal carries the blow to the root and leaves the other trees alone. */
  lemma {:induction false} FrontSettles(s: Session, ts: seq<Task>, i: nat, st: Status, h: nat, pos: nat)
    requires Front(ts, i, st, h, s.tasks) && h <= pos <= |ts|
    ensures Tree(Parents(s.tasks)) && Strikes(ts, i, st, SettleBelow(s, pos).tasks)
    decreases pos
  {
    hide Front, SettleAt, Quiet, Descendant, Strikes, FrontDone;
    FrontTree(ts, i, st, h, s.tasks);
    if h < pos {
      SettleAbove(s, ts, i, st, h, pos - 1);
      FrontSettles(s, ts, i, st, h, pos - 1);
    } else {
      var r := FrontStep(s, ts, i, st, h);
      if ts[h - 1].parent == 0 {
        RootStays(r, ts, i, st, h, h - 1);
        RootStrikes(ts, i, st, h, r.tasks);
      } else {
        FrontSettles(r, ts, i, st, ts[h - 1].parent, h - 1);
      }
    }
  }

  // ----- What starts a strike -----

  /** The first front is at the failing task itself. */
  lemma StartsAt(ts: seq<Task>, i: nat, st: Status, k: nat, t: Task)
    requires Tree(Parents(ts)) && i < |ts| && k < |ts| && !Terminal(ts[i].status)
    requires if k == i then Falling(t, Ended(ts[k], st))
             else if Below(ts, i + 1, k) then t == Ended(ts[k], Cancelled)
             else t == ts[k]
    ensures FrontAt(ts, i, st, i + 1, k, t)
  {
    ChildStep(Parents(ts), i + 1, i + 1);
    hide Descendant;
    if k != i && Descendant(Parents(ts), k + 1, i + 1) && Descendant(Parents(ts), i + 1, k + 1) {
      DescendantBoth(Parents(ts), i + 1, k + 1);
    }
  }

  lemma FailureFront(s: Session, i: nat, st: Status)
    requires Quiet(s.tasks) && i < |s.tasks| && Unfinished(s.tasks[i]) && (st.Trapped? || st.Exited?)
    ensures Tree(Parents(s.tasks)) && Parents(FinishBody(s, i, st, None).tasks) == Parents(s.tasks)
    ensures Front(s.tasks, i, st, i + 1, Cancel(FinishBody(s, i, st, None), i + 1, false).tasks)
  {
    hide Quiet, Descendant, FrontAt;
    var ts, f := s.tasks, FinishBody(s, i, st, None);
    QuietTree(ts);
    assert Parents(f.tasks) == Parents(ts);
    var cur := Cancel(f, i + 1, false).tasks;
    ChildStep(Parents(ts), i + 1, i + 1);
    forall k | 0 <= k < |ts| ensures FrontAt(ts, i, st, i + 1, k, cur[k]) {
      StartsAt(ts, i, st, k, cur[k]);
    }
  }

  /** A body that traps or exits: its ancestors trap, the rest of its tree is cancelled, and
      finished tasks and other trees stay as they are. */
  lemma FailureStrikes(s: Session, i: nat, st: Status)
    requires Quiet(s.tasks) && i < |s.tasks| && Unfinished(s.tasks[i]) && (st.Trapped? || st.Exited?)
    ensures Tree(Parents(s.tasks)) && Strikes(s.tasks, i, st, EndBody(s, i, st, None).tasks)
  {
    hide Quiet, Front, Strikes, Cancel, FinishBody, SettleBelow, Unfinished;
    QuietTree(s.tasks);
    FailureFront(s, i, st);
    var g := Cancel(FinishBody(s, i, st, None), i + 1, false);
    FrontTree(s.tasks, i, st, i + 1, g.tasks);
    FrontSettles(g, s.tasks, i, st, i + 1, |s.tasks|);
  }

  lemma CancelFront(s: Session, i: nat)
    requires Quiet(s.tasks) && i < |s.tasks| && !Terminal(s.tasks[i].status)
    ensures Tree(Parents(s.tasks)) && Front(s.tasks, i, Cancelled, i + 1, Cancel(s, i + 1, true).tasks)
  {
    hide Quiet, Descendant, FrontAt;
    var ts := s.tasks;
    QuietTree(ts);
    var cur := Cancel(s, i + 1, true).tasks;
    ChildStep(Parents(ts), i + 1, i + 1);
    forall k | 0 <= k < |ts| ensures FrontAt(ts, i, Cancelled, i + 1, k, cur[k]) {
      StartsAt(ts, i, Cancelled, k, cur[k]);
    }
  }

  /** Cancelling a live task strikes its tree. */
  lemma CancelStrikes(s: Session, i: nat)
    requires Quiet(s.tasks) && i < |s.tasks| && !Terminal(s.tasks[i].status)
    ensures Tree(Parents(s.tasks)) && Strikes(s.tasks, i, Cancelled, Settle(Cancel(s, i + 1, true)).tasks)
  {
    hide Quiet, Front, Strikes, Cancel, SettleBelow;
    QuietTree(s.tasks);
    CancelFront(s, i);
    var g := Cancel(s, i + 1, true);
    FrontTree(s.tasks, i, Cancelled, i + 1, g.tasks);
    FrontSettles(g, s.tasks, i, Cancelled, i + 1, |s.tasks|);
  }

  lemma QuietStaysAt(s: Session, j: nat)
    requires Quiet(s.tasks) && j < |s.tasks|
    ensures Tree(Parents(s.tasks)) && SettleAt(s, j) == s
  {
    assert SettledAt(s.tasks, j);
    if HasParent(s.tasks, j) {
      LiveOutcome(s.tasks, s.tasks[j].parent - 1);
    }
    SettleAtStays(s, j);
  }

  lemma {:induction false} QuietStays(s: Session, pos: nat)
    requires Quiet(s.tasks) && pos <= |s.tasks|
    ensures Tree(Parents(s.tasks)) && SettleBelow(s, pos) == s
    decreases pos
  {
    hide Quiet, SettleAt;
    QuietTree(s.tasks);
    if pos > 0 {
      QuietStaysAt(s, pos - 1);
      QuietStays(s, pos - 1);
    }
  }

  lemma {:induction false} FinishedBelow(ts: seq<Task>, i: nat, k: nat)
    requires Quiet(ts) && i < |ts| && k < |ts| && Terminal(ts[i].status) && Descendant(Parents(ts), k + 1, i + 1)
    ensures Terminal(ts[k].status)
    decreases k
  {
    if !Terminal(ts[k].status) {
      LiveAncestors(ts, k, i + 1);
    }
  }

  /** Cancelling a finished task changes nothing. */
  lemma CancelFinished(s: Session, i: nat)
    requires Quiet(s.tasks) && i < |s.tasks| && Terminal(s.tasks[i].status)
    ensures Tree(Parents(s.tasks)) && Settle(Cancel(s, i + 1, true)) == s
  {
    hide Quiet, SettleBelow, Descendant;
    QuietTree(s.tasks);
    var r := CancelTasks(s.tasks, i + 1, true);
    forall k | 0 <= k < |s.tasks| ensures r[k] == s.tasks[k] {
      if Descendant(Parents(s.tasks), k + 1, i + 1) {
        FinishedBelow(s.tasks, i, k);
      }
    }
    assert r == s.tasks;
    QuietStays(s, |s.tasks|);
  }

  // ----- A completion rises -----

  /** Task `k` when the body of task `i` has completed with `v` and nothing has settled yet. */
  ghost function Completing(ts: seq<Task>, i: nat, v: int, k: nat): Task
    requires i < |ts| && k < |ts|
  {
    if k == i
    then ts[i].(status := Joining, outcome := Completed, result := Some(v), pending := false, queued := false)
    else ts[k]
  }

  /** Task `k` once the traversal has passed it, given the table `r` above it. */
  ghost function RisenAt(ts: seq<Task>, i: nat, v: int, r: seq<Task>, k: nat): Task
    requires Tree(Parents(ts)) && i < |ts| && k < |ts|
  {
    var t := Completing(ts, i, v, k);
    if Descendant(Parents(ts), i + 1, k + 1) && t.status.Joining? && Joined(r, k)
    then t.(status := Completed) else t
  }

  /** Only joining ancestors whose last child has finished move, and they complete. */
  ghost predicate Rises(ts: seq<Task>, i: nat, v: int, r: seq<Task>)
    requires Tree(Parents(ts)) && i < |ts|
  {
    |r| == |ts| && forall k :: 0 <= k < |ts| ==> r[k] == RisenAt(ts, i, v, r, k)
  }

  ghost predicate Rising(ts: seq<Task>, i: nat, v: int, pos: nat, cur: seq<Task>) {
    && Quiet(ts) && Tree(Parents(ts)) && i < |ts| && Unfinished(ts[i]) && |cur| == |ts|
    && (forall k :: 0 <= k < |ts| ==>
          cur[k] == if k < pos then Completing(ts, i, v, k) else RisenAt(ts, i, v, cur, k))
  }

  lemma RisingTree(ts: seq<Task>, i: nat, v: int, pos: nat, cur: seq<Task>)
    requires Rising(ts, i, v, pos, cur)
    ensures Parents(cur) == Parents(ts) && Tree(Parents(cur))
    ensures Quiet(ts) && i < |ts| && Unfinished(ts[i]) && |cur| == |ts|
  {
    hide Quiet, Descendant, Joined;
    forall k | 0 <= k < |ts| ensures cur[k].parent == ts[k].parent {
    }
  }

  lemma RisingOne(ts: seq<Task>, i: nat, v: int, pos: nat, cur: seq<Task>, k: nat)
    requires Rising(ts, i, v, pos, cur) && k < |ts|
    ensures cur[k] == if k < pos then Completing(ts, i, v, k) else RisenAt(ts, i, v, cur, k)
  {
    hide Quiet, Descendant, Joined;
  }

  /** No failure is outstanding while a completion rises. */
  lemma RisingReported(ts: seq<Task>, i: nat, v: int, pos: nat, cur: seq<Task>, j: nat)
    requires Rising(ts, i, v, pos, cur) && HasParent(ts, j)
    ensures Reported(cur[j], cur[ts[j].parent - 1])
  {
    hide Rising, Descendant, Joined;
    RisingTree(ts, i, v, pos, cur);
    var p := ts[j].parent - 1;
    RisingOne(ts, i, v, pos, cur, j);
    RisingOne(ts, i, v, pos, cur, p);
    assert SettledAt(ts, j);
    if !Terminal(ts[p].status) {
      LiveIn(ts, p);
    }
  }

  /** A joining task that is not an ancestor still has its live child. */
  lemma RisingWaits(ts: seq<Task>, i: nat, v: int, pos: nat, cur: seq<Task>, j: nat)
    requires Rising(ts, i, v, pos, cur) && j < |ts| && cur[j].status.Joining?
    requires Tree(Parents(ts)) && !Descendant(Parents(ts), i + 1, j + 1)
    ensures !Joined(cur, j)
  {
    hide Rising, Quiet, Descendant, Joined;
    RisingTree(ts, i, v, pos, cur);
    RisingOne(ts, i, v, pos, cur, j);
    ChildStep(Parents(ts), i + 1, i + 1);
    QuietJoining(ts, j);
    var c :| HasParent(ts, c) && ts[c].parent == j + 1 && !Terminal(ts[c].status);
    RisingOne(ts, i, v, pos, cur, c);
    ChildStep(Parents(ts), c + 1, j + 1);
    ChildStep(Parents(ts), j + 1, j + 1);
    if Descendant(Parents(ts), i + 1, c + 1) {
      DescendantTwice(Parents(ts), i + 1, c + 1, j + 1);
    }
    assert Parents(cur)[c] == Parents(ts)[c];
    LiveChild(cur, j, c);
  }

  lemma LiveChild(ts: seq<Task>, j: nat, c: nat)
    requires j < c < |ts| && ts[c].parent == j + 1 && !Terminal(ts[c].status)
    ensures !Joined(ts, j)
  {
  }

  /** Joining looks only at tasks above. */
  lemma JoinedAbove(a: seq<Task>, b: seq<Task>, j: nat)
    requires |a| == |b| && forall k :: j < k < |a| ==> a[k] == b[k]
    ensures Joined(a, j) <==> Joined(b, j)
  {
  }

  lemma RisingStep(s: Session, ts: seq<Task>, i: nat, v: int, pos: nat)
    requires Rising(ts, i, v, pos, s.tasks) && 0 < pos <= |ts|
    ensures Tree(Parents(s.tasks)) && Rising(ts, i, v, pos - 1, SettleAt(s, pos - 1).tasks)
  {
    hide Quiet, Descendant, Joined, PropagateAt;
    RisingTree(ts, i, v, pos, s.tasks);
    var j, m := pos - 1, JoinAt(s, pos - 1);
    var r := m.tasks;
    assert Rising(ts, i, v, j, r) by {
      RisingJoins(s, ts, i, v, pos);
    }
    RisingTree(ts, i, v, j, r);
    assert Parents(r)[j] == Parents(ts)[j];
    if HasParent(ts, j) {
      RisingReported(ts, i, v, j, r, j);
      RisingOne(ts, i, v, j, r, ts[j].parent - 1);
      LiveOutcome(ts, ts[j].parent - 1);
    }
    hide Rising;
    ReportedStays(m, j);
  }

  lemma ReportedStays(s: Session, j: nat)
    requires j < |s.tasks| && Tree(Parents(s.tasks))
    requires HasParent(s.tasks, j) ==> Heard(s.tasks[j], s.tasks[s.tasks[j].parent - 1])
    ensures PropagateAt(s, j) == s
  {
    assert Parents(s.tasks)[j] <= j;
  }

  lemma RisingJoins(s: Session, ts: seq<Task>, i: nat, v: int, pos: nat)
    requires Rising(ts, i, v, pos, s.tasks) && 0 < pos <= |ts|
    ensures Rising(ts, i, v, pos - 1, JoinAt(s, pos - 1).tasks)
  {
    hide Quiet, Descendant, Joined;
    RisingTree(ts, i, v, pos, s.tasks);
    var j, cur, r := pos - 1, s.tasks, JoinAt(s, pos - 1).tasks;
    forall k | 0 <= k < |ts| ensures r[k] == if k < j then Completing(ts, i, v, k) else RisenAt(ts, i, v, r, k) {
      RisingOne(ts, i, v, pos, cur, k);
      if k >= j {
        JoinedAbove(cur, r, k);
      }
      if k == j && cur[j].status.Joining? {
        JoiningOutcome(ts, i, v, j);
        if !Descendant(Parents(ts), i + 1, j + 1) {
          RisingWaits(ts, i, v, pos, cur, j);
        }
      }
    }
  }

  lemma JoiningOutcome(ts: seq<Task>, i: nat, v: int, j: nat)
    requires Quiet(ts) && i < |ts| && j < |ts| && Completing(ts, i, v, j).status.Joining?
    ensures Completing(ts, i, v, j).outcome.Completed?
  {
    if j != i {
      QuietJoining(ts, j);
    }
  }

  lemma {:induction false} RisingSettles(s: Session, ts: seq<Task>, i: nat, v: int, pos: nat)
    requires Rising(ts, i, v, pos, s.tasks) && pos <= |ts|
    ensures Tree(Parents(s.tasks)) && Rising(ts, i, v, 0, SettleBelow(s, pos).tasks)
    decreases pos
  {
    hide Rising, SettleAt, Quiet;
    RisingTree(ts, i, v, pos, s.tasks);
    if pos > 0 {
      RisingStep(s, ts, i, v, pos);
      var r := SettleAt(s, pos - 1);
      RisingTree(ts, i, v, pos - 1, r.tasks);
      RisingSettles(r, ts, i, v, pos - 1);
    }
  }

  /** A body that completes moves nothing but itself and the joining ancestors it was the last to finish for. */
  lemma CompletionRises(s: Session, i: nat, v: int)
    requires Quiet(s.tasks) && i < |s.tasks| && Unfinished(s.tasks[i])
    ensures Tree(Parents(s.tasks)) && Rises(s.tasks, i, v, EndBody(s, i, Completed, Some(v)).tasks)
  {
    hide Quiet, SettleBelow, Descendant, Joined;
    QuietTree(s.tasks);
    var f := FinishBody(s, i, Completed, Some(v));
    assert Parents(f.tasks) == Parents(s.tasks);
    assert Rising(s.tasks, i, v, |s.tasks|, f.tasks);
    RisingSettles(f, s.tasks, i, v, |s.tasks|);
  }
}
