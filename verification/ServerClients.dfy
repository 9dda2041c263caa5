/** What every call leaves as it was: a client stays in its slot with its connection and its deadline
    and only moves forward, a server that stops admits nobody, and one that has ended stays ended. */
module ServerClients {
  import opened ServerModel
  import opened ServerProofs

  // ----- One client -----

  function Rank(p: Phase): nat {
    match p
    case Read => 0
    case Start => 1
    case Run => 2
    case StreamRead => 2
    case Write => 3
  }

  /** The same client later on. */
  predicate Onward(c: Client, d: Client) {
    && d.fd == c.fd && d.connection == c.connection && d.outcome == c.outcome && d.deadline == c.deadline
    && c.received <= d.received && Rank(c.phase) <= Rank(d.phase)
    && (c.phase.Write? ==> d.length == c.length && c.sent <= d.sent)
  }

  /** Whoever is in a slot was there before, or has been admitted since. */
  predicate SlotSteady(s: Server, x: Slot, y: Slot) {
    y.Busy? ==> y.client.outcome >= s.admitted || (x.Busy? && Onward(x.client, y.client))
  }

  predicate Steady(s: Server, r: Server) {
    && r.limits == s.limits && r.continuous == s.continuous && r.streaming == s.streaming
    && r.admissionDeadline == s.admissionDeadline && |r.slots| == |s.slots|
    && s.admitted <= r.admitted && s.departed <= r.departed
    && (s.stopping ==> r.stopping && r.drainDeadline == s.drainDeadline && r.admitted == s.admitted)
    && (Done(s) ==> r == s.(nextIo := r.nextIo))
    && (forall i :: 0 <= i < |s.slots| ==> SlotSteady(s, s.slots[i], r.slots[i]))
  }

  lemma SteadyTwice(a: Server, b: Server, c: Server)
    requires Steady(a, b) && Steady(b, c)
    ensures Steady(a, c)
  {
    forall i | 0 <= i < |a.slots| ensures SlotSteady(a, a.slots[i], c.slots[i]) {
      assert SlotSteady(a, a.slots[i], b.slots[i]) && SlotSteady(b, b.slots[i], c.slots[i]);
    }
  }

  lemma SteadySelf(s: Server)
    ensures Steady(s, s)
  {
  }

  // ----- Single operations -----

  lemma FinishSteady(s: Server, i: nat, ok: bool, writing: bool := false)
    requires i < |s.slots| && s.slots[i].Busy? && !Done(s)
    ensures Steady(s, Finish(s, i, ok, writing))
  {
  }

  lemma PutSteady(s: Server, i: nat, c: Client)
    requires i < |s.slots| && s.slots[i].Busy? && !Done(s) && Onward(s.slots[i].client, c)
    ensures Steady(s, WithClient(s, i, c))
  {
  }

  lemma EmptiedSteady(s: Server, e: Ending)
    requires !Done(s)
    ensures Steady(s, Emptied(s).(ending := e))
  {
  }

  lemma StopAtSteady(s: Server, now: nat)
    requires !Done(s)
    ensures Steady(s, StopAt(s, now))
  {
  }

  lemma AdmitSteady(s: Server, now: nat, id: nat, fd: int, i: nat)
    requires i < |s.slots| && s.slots[i].Free? && !Done(s) && !s.stopping
    ensures Steady(s, Admit(s, now, id, fd, i))
  {
  }

  lemma AcceptSteady(s: Server, now: nat, a: Accepted)
    requires !Done(s)
    ensures Steady(s, Accept(s, now, a))
  {
    hide Steady, Finish, Admit, FirstFree, StopAt, Emptied;
    SteadySelf(s);
    EmptiedSteady(s, FailedEarly);
    if a.Connection? && !s.stopping && FirstFree(s.slots) < |s.slots| {
      var i := FirstFree(s.slots);
      AdmitLive(s, now, a.id, a.fd, i);
      var t := Admit(s, now, a.id, a.fd, i);
      AdmitSteady(s, now, a.id, a.fd, i);
      FinishSteady(t, i, false);
      FinishLive(t, i, false);
      var u := if a.configured then t else Finish(t, i, false);
      SteadySelf(t);
      SteadyTwice(s, t, u);
      StopAtSteady(u, now);
      SteadyTwice(s, u, StopAt(u, now));
    }
  }

  lemma AdmitLive(s: Server, now: nat, id: nat, fd: int, i: nat)
    requires i < |s.slots| && s.slots[i].Free?
    ensures var t := Admit(s, now, id, fd, i); i < |t.slots| && t.slots[i].Busy? && t.ending == s.ending
  {
  }

  lemma FinishLive(s: Server, i: nat, ok: bool, writing: bool := false)
    requires i < |s.slots| && s.slots[i].Busy?
    ensures Finish(s, i, ok, writing).ending == s.ending
  {
  }

  // ----- Deadlines -----

  lemma {:induction false} ExpireSteady(s: Server, now: nat, n: nat)
    requires !Done(s) && n <= |s.slots|
    ensures Steady(s, ExpireTo(s, now, n)) && ExpireTo(s, now, n).ending == s.ending
  {
    hide Steady, Finish;
    SteadySelf(s);
    if n > 0 {
      ExpireSteady(s, now, n - 1);
      var t := ExpireTo(s, now, n - 1);
      if t.slots[n - 1].Busy? {
        FinishSteady(t, n - 1, false);
        FinishLive(t, n - 1, false);
        SteadyTwice(s, t, Finish(t, n - 1, false));
      }
    }
  }

  lemma EndingSteady(s: Server, e: Ending)
    requires !Done(s)
    ensures Steady(s, s.(ending := e))
  {
  }

  lemma DeadlinesSteady(s: Server, clock: Option<nat>)
    ensures Steady(s, Deadlines(s, clock))
  {
    hide Steady, ExpireTo, StopAt, Emptied, ReportOf;
    SteadySelf(s);
    if !Done(s) {
      EmptiedSteady(s, FailedEarly);
      if clock.Some? {
        var t := Stopping(s, clock.value);
        StopAtSteady(s, s.admissionDeadline);
        StopAtLive(s, s.admissionDeadline);
        ExpireSteady(t, clock.value, |t.slots|);
        var u := ExpireTo(t, clock.value, |t.slots|);
        SteadyTwice(s, t, u);
        EndingSteady(u, Reported(ReportOf(u)));
        SteadyTwice(s, u, u.(ending := Reported(ReportOf(u))));
      }
    }
  }

  lemma StopAtLive(s: Server, now: nat)
    ensures StopAt(s, now).ending == s.ending
  {
  }

  // ----- Readiness -----

  lemma IoSteady(s: Server, i: nat, io: Io)
    requires i < |s.slots| && s.slots[i].Busy? && !Done(s)
    ensures s.slots[i].client.phase.Read? ==> Steady(s, ReadFrom(s, i, io))
    ensures s.slots[i].client.phase.StreamRead? ==> Steady(s, StreamFrom(s, i, io))
  {
    hide Steady, Finish, WithClient;
    var c := s.slots[i].client;
    SteadySelf(s);
    FinishSteady(s, i, false);
    var n := if io.Moved? && io.count <= s.limits.requestLimit - c.received then io.count else 0;
    if c.phase.Read? {
      PutSteady(s, i, c.(received := c.received + n));
      PutSteady(s, i, c.(phase := Start));
    } else if c.phase.StreamRead? {
      PutSteady(s, i, c.(phase := Run));
      PutSteady(s, i, c.(phase := Run, received := c.received + n));
    }
  }

  lemma WriteSteady(s: Server, i: nat, io: Io)
    requires i < |s.slots| && s.slots[i].Busy? && !Done(s) && s.slots[i].client.sent <= s.slots[i].client.length
    ensures Steady(s, WriteTo(s, i, io))
  {
    hide Steady, Finish;
    var c := s.slots[i].client;
    SteadySelf(s);
    FinishSteady(s, i, false);
    FinishSteady(s, i, false, true);
    FinishSteady(s, i, true, true);
    if io.Moved? {
      var t := WithClient(s, i, c.(sent := c.sent + Least(io.count, c.length - c.sent)));
      PutSteady(s, i, t.slots[i].client);
      FinishSteady(t, i, true, true);
      SteadyTwice(s, t, Finish(t, i, true, true));
    }
  }

  lemma ServeOneSteady(s: Server, w: Watch, now: nat, ready: Ready)
    requires !Done(s)
    ensures Steady(s, ServeOne(s, w, now, ready))
  {
    hide Steady, Accept, ReadFrom, StreamFrom, WriteTo, Emptied, Finish;
    SteadySelf(s);
    EmptiedSteady(s, FailedEarly);
    if ready.Accepting? {
      AcceptSteady(s, now, ready.accepted);
    }
    if Current(s, w) && SentOk(s) && ready.Socket? {
      IoSteady(s, w.slot, ready.io);
      WriteSteady(s, w.slot, ready.io);
      FinishSteady(s, w.slot, false);
    }
  }

  lemma {:induction false} ServeSteady(s: Server, watches: seq<Watch>, turns: seq<Turn>)
    requires |watches| == |turns|
    ensures Steady(s, Serve(s, watches, turns).0)
    decreases |watches|
  {
    hide Steady, Deadlines, ServeOne;
    SteadySelf(s);
    if watches != [] && !Done(s) {
      var t := Deadlines(s, turns[0].clock);
      DeadlinesSteady(s, turns[0].clock);
      if !Done(t) && turns[0].clock.Some? {
        var u := ServeOne(t, watches[0], turns[0].clock.value, turns[0].ready);
        ServeOneSteady(t, watches[0], turns[0].clock.value, turns[0].ready);
        ServeSteady(u, watches[1..], turns[1..]);
        SteadyTwice(s, t, u);
        SteadyTwice(s, u, Serve(u, watches[1..], turns[1..]).0);
      }
    }
  }

  lemma NextIoSteady(s: Server, n: nat)
    ensures Steady(s, s.(nextIo := n))
  {
  }

  lemma PollSteady(s: Server, before: Option<nat>, polled: Polled, after: Option<nat>, turns: seq<Turn>, last: Option<nat>)
    ensures Steady(s, Poll(s, before, polled, after, turns, last))
  {
    hide Steady, Deadlines, Snapshot, Emptied, Awake;
    var t := Deadlines(s, before);
    DeadlinesSteady(s, before);
    if !Done(t) && |t.slots| > 0 {
      EmptiedSteady(t, FailedEarly);
      SteadyTwice(s, t, FailedServer(t));
      AwakeSteady(t, Snapshot(t), polled, after, turns, last);
      SteadyTwice(s, t, Awake(t, Snapshot(t), polled, after, turns, last));
    }
  }

  lemma AwakeSteady(t: Server, watches: seq<Watch>, polled: Polled, after: Option<nat>, turns: seq<Turn>, last: Option<nat>)
    requires |t.slots| > 0
    ensures Steady(t, Awake(t, watches, polled, after, turns, last))
  {
    hide Steady, Deadlines, Serve;
    var u := Deadlines(t, after);
    DeadlinesSteady(t, after);
    if |watches| == |turns| {
      var v := Serve(u, watches, turns).0;
      var n := v.(nextIo := (v.nextIo + 1) % |t.slots|);
      ServeSteady(u, watches, turns);
      SteadyTwice(t, u, v);
      NextIoSteady(v, (v.nextIo + 1) % |t.slots|);
      SteadyTwice(t, v, n);
      DeadlinesSteady(n, last);
      SteadyTwice(t, n, Deadlines(n, last));
    }
  }

  // ----- Handlers -----

  lemma HandlerSteady(s: Server, i: nat, h: Handled)
    requires i < |s.slots| && !Done(s) && Runs(s, i)
    ensures Steady(s, HandlerResult(s, i, h))
  {
    hide Steady, Finish, WithClient, Emptied;
    EmptiedSteady(s, TrappedEarly);
    FinishSteady(s, i, false);
    if h.Reply? {
      PutSteady(s, i, s.slots[i].client.(phase := Write, execution := false, length := h.length, sent := 0));
    }
  }

  lemma StartedSteady(s: Server, i: nat, ok: bool)
    requires i < |s.slots| && !Done(s)
    ensures Steady(s, Started(s, i, ok))
  {
    hide Steady, WithClient, Emptied;
    SteadySelf(s);
    EmptiedSteady(s, TrappedEarly);
    if s.slots[i].Busy? && s.slots[i].client.phase.Start? {
      PutSteady(s, i, s.slots[i].client.(phase := Run, execution := true));
    }
  }

  lemma TurnedSteady(s: Server, i: nat, w: Work)
    requires i < |s.slots| && !Done(s)
    ensures Steady(s, Turned(s, i, w))
  {
    var t := Started(s, i, w.starts);
    StartedSteady(s, i, w.starts);
    if !Done(t) && Runs(t, i) {
      var d := Dispatched(t, i, w.progress);
      SteadySelf(t);
      PutSteady(t, i, t.slots[i].client.(phase := StreamRead));
      hide Steady, Deadlines, HandlerResult, Started, Emptied;
      SteadyTwice(s, t, d);
      var u := Deadlines(d, w.after);
      DeadlinesSteady(d, w.after);
      SteadyTwice(s, d, u);
      if !Done(u) && i < |u.slots| && Runs(u, i) {
        EmptiedSteady(u, TrappedEarly);
        SteadyTwice(s, u, TrappedServer(u));
        if w.progress.Completes? {
          HandlerSteady(u, i, w.progress.handled);
          SteadyTwice(s, u, HandlerResult(u, i, w.progress.handled));
        }
      }
    }
  }

  lemma NextHandlerSteady(s: Server, n: nat)
    requires !Done(s)
    ensures Steady(s, s.(nextHandler := n))
  {
  }

  lemma {:induction false} AdvanceLoopSteady(s: Server, budget: nat, idle: nat, k: nat, work: nat -> Work)
    ensures Steady(s, AdvanceLoop(s, budget, idle, k, work))
    decreases budget, |s.slots| - idle
  {
    hide Steady, Deadlines, Turned, Started, Runs;
    SteadySelf(s);
    if budget > 0 {
      var t := Deadlines(s, work(k).clock);
      DeadlinesSteady(s, work(k).clock);
      if !Done(t) && idle < |s.slots| && |t.slots| == |s.slots| && t.nextHandler < |t.slots| {
        var i := t.nextHandler;
        var n := t.(nextHandler := (i + 1) % |t.slots|);
        NextHandlerSteady(t, (i + 1) % |t.slots|);
        SteadyTwice(s, t, n);
        var u := Turned(n, i, work(k));
        TurnedSteady(n, i, work(k));
        SteadyTwice(s, n, u);
        if !Done(u) && |u.slots| == |s.slots| {
          AdvanceLoopSteady(u, budget - 1, 0, k + 1, work);
          AdvanceLoopSteady(u, budget - 1, idle + 1, k + 1, work);
          AdvanceLoopSteady(u, budget, idle + 1, k + 1, work);
          SteadyTwice(s, u, AdvanceLoop(s, budget, idle, k, work));
        }
      }
    }
  }

  lemma StepSteady(s: Server, e: Event)
    ensures Steady(s, Step(s, e))
  {
    hide Steady, Deadlines, AdvanceLoop, Poll, StopAt;
    match e {
      case PollEvent(before, polled, after, turns, last) => PollSteady(s, before, polled, after, turns, last);
      case AdvanceEvent(clock, budget, work) =>
        var t := Deadlines(s, clock);
        DeadlinesSteady(s, clock);
        AdvanceLoopSteady(t, budget, 0, 0, work);
        SteadyTwice(s, t, AdvanceLoop(t, budget, 0, 0, work));
      case StopEvent(clock, again) =>
        var t := Deadlines(s, clock);
        DeadlinesSteady(s, clock);
        if !Done(t) && clock.Some? {
          var u := StopAt(t, clock.value);
          StopAtSteady(t, clock.value);
          SteadyTwice(s, t, u);
          DeadlinesSteady(u, again);
          SteadyTwice(s, u, Deadlines(u, again));
        }
    }
  }

  /** Over any run: a client keeps its slot, connection and deadline and only moves forward, what has
      left stays recorded, a stopping server admits nobody and keeps its drain deadline, and a server
      that has ended changes no more. */
  lemma {:induction false} RunSteady(s: Server, events: seq<Event>)
    ensures Steady(s, RunServer(s, events))
    decreases |events|
  {
    hide Steady, Step;
    SteadySelf(s);
    if events != [] {
      var n := |events| - 1;
      RunSteady(s, events[..n]);
      StepSteady(RunServer(s, events[..n]), events[n]);
      SteadyTwice(s, RunServer(s, events[..n]), RunServer(s, events));
    }
  }

  // ----- Admission and deadlines, exactly -----

  /** A connection is admitted exactly when the server is not stopping and not full. It takes a free
      slot, the next number and a fresh deadline; one that could not be configured leaves at once as
      failed. The last of a finite number of admissions starts the drain. */
  lemma AcceptTakes(s: Server, now: nat, a: Accepted)
    requires Inv(s) && !Done(s) && a.Connection? && s.admitted < SIZE_MAX
    ensures var r := Accept(s, now, a);
            if s.stopping || s.active == s.limits.concurrency then r == s
            else
              && r.admitted == s.admitted + 1 && r.history == s.history + [a.id]
              && (r.stopping <==> !s.continuous && r.admitted == s.limits.clients)
              && (r.stopping ==> r.drainDeadline == now + s.limits.drain)
              && (a.configured ==> r.active == s.active + 1 && r.departed == s.departed)
              && (!a.configured ==> r.slots == s.slots && |r.departed| == |s.departed| + 1 && !Whole(r.departed[|s.departed|]))
              && exists i :: 0 <= i < |s.slots| && s.slots[i].Free? &&
                   (a.configured ==> r.slots == s.slots[i := Busy(Newcomer(s, now, a))])
  {
    hide Inv, FirstFree;
    InvParts(s);
    OccupiedBound(s.slots);
    if !s.stopping && s.active != s.limits.concurrency {
      var i := FirstFree(s.slots);
      assert i < |s.slots| && s.slots[i].Free?;
      assert s.slots[i := Busy(Newcomer(s, now, a))][i := Free] == s.slots;
    }
  }

  function Newcomer(s: Server, now: nat, a: Accepted): Client
    requires a.Connection?
  {
    Client(if s.streaming then Start else Read, a.fd, a.id, s.admitted, now + s.limits.clientTimeout, false, 0, 0, 0)
  }

  /** The slot is past its deadline, or past the drain deadline of a stopping server. */
  predicate Overdue(s: Server, now: nat, i: nat)
    requires i < |s.slots|
  {
    s.slots[i].Busy? && (now >= s.slots[i].client.deadline || (s.stopping && now >= s.drainDeadline))
  }

  lemma {:induction false} ExpireExactly(s: Server, now: nat, n: nat)
    requires n <= |s.slots|
    ensures var r := ExpireTo(s, now, n);
            && r.stopping == s.stopping && r.drainDeadline == s.drainDeadline
            && forall i :: 0 <= i < |s.slots| ==>
                 r.slots[i] == if i < n && Overdue(s, now, i) then Free else s.slots[i]
  {
    if n > 0 {
      ExpireExactly(s, now, n - 1);
      hide ExpireTo;
      assert ExpireTo(s, now, n) == Expire(ExpireTo(s, now, n - 1), now, n - 1) by { ExpireUnfolds(s, now, n); }
    }
  }

  lemma ExpireUnfolds(s: Server, now: nat, n: nat)
    requires 0 < n <= |s.slots|
    ensures ExpireTo(s, now, n) == Expire(ExpireTo(s, now, n - 1), now, n - 1)
  {
  }

  /** Deadlines take exactly the clients that are overdue; a finite server stops at its admission
      deadline, and a stopping one without clients reports. */
  lemma DeadlinesTake(s: Server, now: nat)
    requires !Done(s)
    ensures var r := Deadlines(s, Some(now));
            var stops := s.stopping || (!s.continuous && now >= s.admissionDeadline);
            var t := s.(stopping := stops,
                        drainDeadline := if stops && !s.stopping then s.admissionDeadline + s.limits.drain else s.drainDeadline);
            && r.stopping == t.stopping && r.drainDeadline == t.drainDeadline
            && (forall i :: 0 <= i < |s.slots| ==> i < |r.slots| && r.slots[i] == if Overdue(t, now, i) then Free else s.slots[i])
            && (r.ending.Reported? <==> stops && r.active == 0) && (r.ending.Live? <==> !(stops && r.active == 0))
  {
    var t := Stopping(s, now);
    ExpireExactly(t, now, |t.slots|);
    ExpireSteady(t, now, |t.slots|);
    hide ExpireTo, ReportOf;
  }
}
