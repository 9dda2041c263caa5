/** The server as an object: slot array, outcomes and counters updated in place by the polling and
    dispatch loops, tied to module ServerModel. */
module TcpServer {
  import opened ServerModel
  import opened ServerProofs

  class VMTcpServer {
    const limits: Limits
    const continuous: bool
    const streaming: bool
    var slots: seq<Slot>
    var outcomes: map<nat, Outcome>
    var admitted: nat
    var active: int
    var succeeded: nat
    var failed: nat
    var nextIo: nat
    var nextHandler: nat
    const admissionDeadline: nat
    var drainDeadline: nat
    var stopping: bool
    var ending: Ending
    ghost var history: seq<nat>
    ghost var departed: seq<Departure>

    ghost function State(): Server
      reads this
    {
      Server(limits, continuous, streaming, slots, outcomes, admitted, active, succeeded, failed,
             nextIo, nextHandler, admissionDeadline, drainDeadline, stopping, ending, history, departed)
    }

    ghost predicate Valid()
      reads this
    {
      Inv(State())
    }

    /** `tcp_server_start_mode` once its arguments are accepted and the listener is up. */
    constructor (limits: Limits, continuous: bool, streaming: bool, admissionDeadline: nat)
      requires ValidLimits(limits, continuous)
      ensures Valid() && State() == StartedServer(limits, continuous, streaming, admissionDeadline)
    {
      this.limits, this.continuous, this.streaming := limits, continuous, streaming;
      this.admissionDeadline, drainDeadline, stopping, ending := admissionDeadline, 0, false, Live;
      slots, outcomes := seq(limits.concurrency, i => Free), map[];
      admitted, active, succeeded, failed, nextIo, nextHandler := 0, 0, 0, 0, 0, 0;
      history, departed := [], [];
      new;
      StartedKeeps(limits, continuous, streaming, admissionDeadline);
    }

    /** `close_all` with the given ending. */
    method CloseAll(e: Ending)
      modifies this
      ensures State() == Emptied(old(State())).(ending := e)
    {
      ghost var before := slots;
      var i := 0;
      while i < |slots|
        invariant 0 <= i <= |slots| == |before| && State() == old(State()).(slots := slots)
        invariant forall k :: 0 <= k < i ==> slots[k].Free?
      {
        slots := slots[i := Free];
        i := i + 1;
      }
      assert slots == seq(|before|, k => Free);
      active := 0;
      ending := e;
    }

    /** `finish_client` */
    method FinishClient(i: nat, ok: bool, ghost writing: bool := false)
      requires i < |slots| && slots[i].Busy?
      modifies this
      ensures State() == Finish(old(State()), i, ok, writing)
    {
      var client := slots[i].client;
      if continuous {
        if ok {
          if succeeded < SIZE_MAX {
            succeeded := succeeded + 1;
          }
        } else if failed < SIZE_MAX {
          failed := failed + 1;
        }
      } else {
        outcomes := outcomes[client.outcome := if ok then Succeeded else Failed];
      }
      slots := slots[i := Free];
      active := active - 1;
      departed := departed + [Departure(client, writing)];
    }

    method StopServing(now: nat)
      modifies this`stopping, this`drainDeadline
      ensures State() == StopAt(old(State()), now)
    {
      if stopping {
        return;
      }
      stopping := true;
      drainDeadline := now + limits.drain;
    }

    /** The loop of `deadlines`: late clients are finished. */
    method ExpireClients(now: nat)
      modifies this
      ensures State() == ExpireTo(old(State()), now, |old(slots)|)
    {
      hide Finish;
      var i := 0;
      while i < |slots|
        invariant 0 <= i <= |slots| == |old(slots)| && State() == ExpireTo(old(State()), now, i)
      {
        if slots[i].Busy? && (now >= slots[i].client.deadline || (stopping && now >= drainDeadline)) {
          SameSlots(State(), i, false);
          FinishClient(i, false);
        }
        i := i + 1;
      }
    }

    /** The report of a normal finish. */
    method WriteReport()
      modifies this`ending
      ensures State() == old(State()).(ending := Reported(ReportOf(old(State()))))
    {
      if continuous {
        ending := Reported(Summary(admitted, succeeded, failed));
      } else {
        var known, list := outcomes, [];
        var k := 0;
        while k < admitted
          invariant 0 <= k <= admitted && |list| == k
          invariant forall j :: 0 <= j < k ==> list[j] == OutcomeAt(State(), j)
        {
          list := list + [if k in known then Some(known[k]) else None];
          k := k + 1;
        }
        ReportIs(State(), Outcomes(list));
        ending := Reported(Outcomes(list));
      }
    }

    /** `deadlines` */
    method ApplyDeadlines(clock: Option<nat>) returns (ok: bool)
      requires Valid()
      modifies this
      ensures Valid() && State() == Deadlines(old(State()), clock)
      ensures ok <==> !Done(State())
      ensures ok ==> clock.Some?
    {
      DeadlinesKeeps(State(), clock);
      hide Inv, Finish, Emptied, ReportOf, ExpireTo;
      if !ending.Live? {
        return false;
      }
      if clock.None? {
        CloseAll(FailedEarly);
        return false;
      }
      var now := clock.value;
      if !continuous && !stopping && now >= admissionDeadline {
        StopServing(admissionDeadline);
      }
      LiveAfter(State(), now, |slots|);
      ExpireClients(now);
      if stopping && active == 0 {
        WriteReport();
        return false;
      }
      ok := true;
    }

    method FindFree() returns (i: nat)
      ensures i == FirstFree(slots)
    {
      i := 0;
      while i < |slots| && slots[i].Busy?
        invariant 0 <= i <= |slots| && forall k :: 0 <= k < i ==> slots[k].Busy?
      {
        i := i + 1;
      }
    }

    method AdmitClient(now: nat, id: nat, fd: int, slot: nat)
      requires slot < |slots|
      modifies this
      ensures State() == Admit(old(State()), now, id, fd, slot)
    {
      slots := slots[slot := Busy(Client(if streaming then Start else Read, fd, id, admitted,
                                         now + limits.clientTimeout, false, 0, 0, 0))];
      admitted := admitted + 1;
      active := active + 1;
      history := history + [id];
    }

    /** `accept_client` */
    method AcceptClient(now: nat, a: Accepted)
      requires Valid() && ending.Live?
      modifies this
      ensures Valid() && State() == Accept(old(State()), now, a)
    {
      AcceptKeeps(State(), now, a);
      hide Inv, Finish, Emptied, Admit, StopAt, FirstFree;
      if stopping || active == limits.concurrency {
        return;
      }
      if admitted == SIZE_MAX {
        CloseAll(FailedEarly);
        return;
      }
      var slot := FindFree();
      match a {
        case NoConnection =>
        case AcceptFailed => CloseAll(FailedEarly);
        case Connection(id, fd, configured) =>
          if slot < |slots| {
            Admitted(State(), now, id, fd, slot);
            AdmitClient(now, id, fd, slot);
            if !configured {
              FinishClient(slot, false);
            }
            if !continuous && admitted == limits.clients {
              StopServing(now);
            }
          }
      }
    }

    method PutClient(i: nat, c: Client)
      requires i < |slots|
      modifies this`slots
      ensures State() == WithClient(old(State()), i, c)
    {
      slots := slots[i := Busy(c)];
    }

    /** `read_client` */
    method ReadClient(i: nat, io: Io)
      requires i < |slots| && slots[i].Busy?
      modifies this
      ensures State() == ReadFrom(old(State()), i, io)
    {
      hide Finish;
      var c := slots[i].client;
      match io {
        case Moved(n) =>
          if n > limits.requestLimit - c.received {
            FinishClient(i, false);
          } else {
            PutClient(i, c.(received := c.received + n));
          }
        case Eof => PutClient(i, c.(phase := Start));
        case Again =>
        case Broken => FinishClient(i, false);
        case Invalid => FinishClient(i, false);
      }
    }

    /** `read_stream_chunk` */
    method ReadStreamChunk(i: nat, io: Io)
      requires i < |slots| && slots[i].Busy?
      modifies this
      ensures State() == StreamFrom(old(State()), i, io)
    {
      hide Finish;
      var c := slots[i].client;
      match io {
        case Moved(n) =>
          if n > limits.requestLimit - c.received {
            PutClient(i, c.(phase := Run));
          } else {
            PutClient(i, c.(phase := Run, received := c.received + n));
          }
        case Eof => PutClient(i, c.(phase := Run));
        case Again =>
        case Broken => PutClient(i, c.(phase := Run));
        case Invalid => FinishClient(i, false);
      }
    }

    /** `write_client` */
    method WriteClient(i: nat, io: Io)
      requires i < |slots| && slots[i].Busy? && slots[i].client.sent <= slots[i].client.length
      modifies this
      ensures State() == WriteTo(old(State()), i, io)
    {
      hide Finish;
      var c := slots[i].client;
      if io.Invalid? {
        FinishClient(i, false);
        return;
      }
      var remaining := c.length - c.sent;
      if remaining > 0 {
        if io.Moved? && io.count > 0 {
          c := c.(sent := c.sent + if io.count < remaining then io.count else remaining);
          PutClient(i, c);
        } else if !io.Again? {
          FinishClient(i, false, true);
          return;
        }
      }
      if c.sent == c.length {
        FinishClient(i, true, true);
      }
    }

    /** One entry of the readiness loop, after its deadlines have been applied. */
    method ServeEntry(w: Watch, now: nat, ready: Ready)
      requires Valid() && ending.Live?
      modifies this
      ensures Valid() && State() == ServeOne(old(State()), w, now, ready)
    {
      ServeOneKeeps(State(), w, now, ready);
      AllSentOk(State());
      hide Inv, Finish, Accept, ReadFrom, StreamFrom, WriteTo, Emptied, SentOk;
      if ready.Quiet? {
        return;
      }
      if w.Listener? {
        if !stopping {
          if ready.ListenerBroken? {
            CloseAll(FailedEarly);
          } else if ready.Accepting? {
            AcceptClient(now, ready.accepted);
          }
        }
        return;
      }
      if !ready.Socket? || w.slot >= |slots| || slots[w.slot].Free?
         || slots[w.slot].client.fd != w.fd || slots[w.slot].client.outcome != w.identity {
        return;
      }
      SentAt(State(), w.slot);
      match slots[w.slot].client.phase {
        case Read => ReadClient(w.slot, ready.io);
        case StreamRead => ReadStreamChunk(w.slot, ready.io);
        case Write => WriteClient(w.slot, ready.io);
        case _ =>
          if ready.io.Invalid? {
            FinishClient(w.slot, false);
          }
      }
    }

    /** The readiness loop of `tcp_server_poll`. */
    method ServeAll(watches: seq<Watch>, turns: seq<Turn>) returns (whole: bool)
      requires Valid() && |watches| == |turns|
      modifies this
      ensures Valid() && (State(), whole) == Serve(old(State()), watches, turns)
    {
      hide Inv, Deadlines, ServeOne;
      var i := 0;
      assert watches[0..] == watches && turns[0..] == turns;
      while i < |watches| && ending.Live?
        invariant 0 <= i <= |watches| && Valid()
        invariant Serve(old(State()), watches, turns) == Serve(State(), watches[i..], turns[i..])
      {
        assert watches[i..][0] == watches[i] && turns[i..][0] == turns[i];
        assert watches[i..][1..] == watches[i + 1..] && turns[i..][1..] == turns[i + 1..];
        var ok := ApplyDeadlines(turns[i].clock);
        if !ok {
          return false;
        }
        ServeEntry(watches[i], turns[i].clock.value, turns[i].ready);
        i := i + 1;
      }
      whole := true;
    }

    /** The descriptors that `tcp_server_poll` watches, starting at the rotating slot. */
    method TakeSnapshot() returns (watches: seq<Watch>)
      requires |slots| > 0
      ensures watches == Snapshot(State())
    {
      hide Rotated;
      watches := [];
      if !stopping && active < limits.concurrency {
        watches := [Listener];
      }
      ghost var first := watches;
      var j := 0;
      while j < |slots|
        invariant 0 <= j <= |slots| && watches == first + WatchedTo(State(), j)
      {
        var i := Rotated(nextIo, j, |slots|);
        if slots[i].Busy? && !slots[i].client.phase.Start? && !slots[i].client.phase.Run? {
          watches := watches + [Watched(i, slots[i].client.fd, slots[i].client.outcome)];
        }
        j := j + 1;
      }
    }

    /** `tcp_server_poll` after the wait. */
    method Wake(watches: seq<Watch>, polled: Polled, after: Option<nat>, turns: seq<Turn>, last: Option<nat>)
      requires Valid() && |slots| > 0
      modifies this
      ensures Valid() && State() == Awake(old(State()), watches, polled, after, turns, last)
    {
      hide Inv, Deadlines, Serve;
      var size := |slots|;
      var ok := ApplyDeadlines(after);
      if !ok || polled.NothingReady? || |watches| != |turns| {
        return;
      }
      var whole := ServeAll(watches, turns);
      if whole {
        NextIoKeeps(State(), (nextIo + 1) % size);
        nextIo := (nextIo + 1) % size;
        ok := ApplyDeadlines(last);
      }
    }

    /** `tcp_server_poll`; the caller supplies one turn for every watched descriptor. */
    method PollServer(before: Option<nat>, polled: Polled, after: Option<nat>, turns: seq<Turn>, last: Option<nat>)
      requires Valid()
      modifies this
      ensures Valid() && State() == Poll(old(State()), before, polled, after, turns, last)
    {
      PollKeeps(State(), before, polled, after, turns, last);
      hide Inv, Deadlines, Snapshot, Emptied, Awake;
      var ok := ApplyDeadlines(before);
      if !ok || |slots| == 0 {
        return;
      }
      var watches := TakeSnapshot();
      if polled.PollFailed? {
        CloseAll(FailedEarly);
      } else if !polled.Interrupted? {
        Wake(watches, polled, after, turns, last);
      }
    }

    /** `handler_result` */
    method TakeResult(i: nat, h: Handled)
      requires i < |slots| && slots[i].Busy?
      modifies this
      ensures State() == HandlerResult(old(State()), i, h)
    {
      hide Finish, Emptied;
      match h {
        case BadResult => CloseAll(TrappedEarly);
        case ErrorResult => FinishClient(i, false);
        case Reply(length) =>
          if length > limits.responseLimit {
            FinishClient(i, false);
          } else {
            PutClient(i, slots[i].client.(phase := Write, execution := false, length := length, sent := 0));
          }
      }
    }

    /** One turn of the handler loop; tells whether an instruction was dispatched and whether the
        handler yielded. */
    method RunHandler(i: nat, w: Work) returns (ran: bool, yielded: bool)
      requires Valid() && ending.Live? && i < |slots|
      modifies this
      ensures Valid() && State() == Turned(old(State()), i, w)
      ensures !Done(State()) ==> ran == Runs(Started(old(State()), i, w.starts), i)
      ensures !Done(State()) && |slots| == |old(slots)| ==> yielded == (ran && w.progress.Yields? && Runs(State(), i))
    {
      TurnedKeeps(State(), i, w);
      hide Inv, Deadlines, HandlerResult, Emptied;
      ran, yielded := false, false;
      if slots[i].Busy? && slots[i].client.phase.Start? {
        if !w.starts {
          CloseAll(TrappedEarly);
          return;
        }
        StartKeeps(State(), i);
        PutClient(i, slots[i].client.(phase := Run, execution := true));
      }
      if slots[i].Free? || !slots[i].client.phase.Run? {
        return;
      }
      ran := true;
      if w.progress.AsksForInput? {
        AskKeeps(State(), i);
        PutClient(i, slots[i].client.(phase := StreamRead));
      }
      var ok := ApplyDeadlines(w.after);
      if !ok || i >= |slots| || slots[i].Free? || !slots[i].client.phase.Run? {
        return;
      }
      match w.progress {
        case Completes(h) => TakeResult(i, h);
        case Traps => CloseAll(TrappedEarly);
        case Yields => yielded := true;
        case _ =>
      }
    }

    /** `tcp_server_advance`: at most `budget` instructions, round robin. */
    method AdvanceServer(clock: Option<nat>, budget: nat, work: nat -> Work)
      requires Valid()
      modifies this
      ensures Valid() && State() == Advance(old(State()), clock, budget, work)
    {
      hide Inv, Deadlines, Turned, Started, Runs;
      var ok := ApplyDeadlines(clock);
      if !ok {
        return;
      }
      ghost var start := State();
      var left, idle, k := budget, 0, 0;
      while left > 0
        invariant Valid() && 0 <= k && 0 <= idle
        invariant AdvanceLoop(start, budget, 0, 0, work) == AdvanceLoop(State(), left, idle, k, work)
        decreases left, limits.concurrency - idle
      {
        SlotsAre(State());
        ok := ApplyDeadlines(work(k).clock);
        SlotsAre(State());
        if !ok || idle >= limits.concurrency {
          return;
        }
        var i := nextHandler;
        NextHandlerKeeps(State(), (i + 1) % limits.concurrency);
        nextHandler := (i + 1) % limits.concurrency;
        var ran, yielded := RunHandler(i, work(k));
        SlotsAre(State());
        if !ending.Live? {
          return;
        }
        idle := if yielded then 0 else idle + 1;
        left := if ran then left - 1 else left;
        k := k + 1;
      }
    }

    /** `tcp_server_stop` */
    method StopServer(clock: Option<nat>, again: Option<nat>)
      requires Valid()
      modifies this
      ensures Valid() && State() == Stop(old(State()), clock, again)
    {
      hide Inv, Deadlines;
      var ok := ApplyDeadlines(clock);
      if ok {
        StopAtKeeps(State(), clock.value);
        StopServing(clock.value);
        ok := ApplyDeadlines(again);
      }
    }
  }

  lemma SlotsAre(s: Server)
    requires Inv(s)
    ensures |s.slots| == s.limits.concurrency && s.nextHandler < |s.slots|
  {
  }

  lemma Admitted(s: Server, now: nat, id: nat, fd: int, i: nat)
    requires i < |s.slots|
    ensures i < |Admit(s, now, id, fd, i).slots| && Admit(s, now, id, fd, i).slots[i].Busy?
  {
  }

  lemma SameSlots(s: Server, i: nat, ok: bool)
    requires i < |s.slots| && s.slots[i].Busy?
    ensures |Finish(s, i, ok).slots| == |s.slots|
  {
  }

  lemma {:induction false} LiveAfter(s: Server, now: nat, n: nat)
    requires n <= |s.slots|
    ensures ExpireTo(s, now, n).ending == s.ending
  {
    if n > 0 {
      LiveAfter(s, now, n - 1);
    }
  }

  lemma ReportIs(s: Server, r: Report)
    requires s.continuous ==> r == Summary(s.admitted, s.succeeded, s.failed)
    requires !s.continuous ==> r.Outcomes? && |r.list| == s.admitted && forall k :: 0 <= k < s.admitted ==> r.list[k] == OutcomeAt(s, k)
    ensures r == ReportOf(s)
  {
  }

  lemma AllSentOk(s: Server)
    requires Inv(s)
    ensures SentOk(s)
  {
    forall i | 0 <= i < |s.slots| && s.slots[i].Busy?
      ensures s.slots[i].client.sent <= s.slots[i].client.length
    {
      ClientAt(s, i);
    }
  }

  lemma SentAt(s: Server, i: nat)
    requires SentOk(s) && i < |s.slots| && s.slots[i].Busy?
    ensures s.slots[i].client.sent <= s.slots[i].client.length
  {
  }
}
