/** The TCP server: client slots, admission, deadlines, readiness and reports. Clocks, accepted
    connections, socket results and handler outcomes are inputs. */
module ServerModel {

  const SERVER_CLIENTS := 256
  const SERVER_CONCURRENCY := 32
  const SIZE_MAX: nat := 0xFFFF_FFFF_FFFF_FFFF

  datatype Option<T> = None | Some(value: T)

  datatype Phase = Read | Start | Run | StreamRead | Write

  /** A live client. `outcome` is its admission number; `execution` says whether it has a handler
      execution; `connection` says which connection the host accepted, and is not visible to the
      program. */
  datatype Client = Client(
    phase: Phase, fd: int, connection: nat, outcome: nat, deadline: nat, execution: bool,
    received: nat, length: nat, sent: nat)

  datatype Slot = Free | Busy(client: Client)

  datatype Outcome = Succeeded | Failed

  datatype Limits = Limits(
    clients: nat, concurrency: nat, requestLimit: nat, responseLimit: nat, clientTimeout: nat, drain: nat)

  datatype Report = Outcomes(list: seq<Option<Outcome>>) | Summary(accepted: nat, succeeded: nat, failed: nat)

  datatype Ending = Live | Reported(report: Report) | FailedEarly | TrappedEarly

  /** A client as it left its slot, and whether it left while its response was being written. */
  datatype Departure = Departure(client: Client, writing: bool)

  /** `history` lists the connections in order of admission, `departed` the clients in the order in
      which they left with an outcome; no operation reads them. */
  datatype Server = Server(
    limits: Limits, continuous: bool, streaming: bool,
    slots: seq<Slot>, outcomes: map<nat, Outcome>, admitted: nat, active: int, succeeded: nat, failed: nat,
    nextIo: nat, nextHandler: nat, admissionDeadline: nat, drainDeadline: nat, stopping: bool, ending: Ending,
    history: seq<nat>, departed: seq<Departure>)

  // ----- Ending -----

  predicate Done(s: Server) {
    !s.ending.Live?
  }

  /** `close_all` */
  function Emptied(s: Server): Server {
    s.(slots := seq(|s.slots|, i => Free), active := 0)
  }

  function FailedServer(s: Server): Server {
    Emptied(s).(ending := FailedEarly)
  }

  function TrappedServer(s: Server): Server {
    Emptied(s).(ending := TrappedEarly)
  }

  function Saturated(n: nat): nat {
    if n < SIZE_MAX then n + 1 else n
  }

  /** `finish_client` */
  function Finish(s: Server, i: nat, ok: bool, writing: bool := false): Server
    requires i < |s.slots| && s.slots[i].Busy?
  {
    var cleared := s.(slots := s.slots[i := Free], active := s.active - 1,
                      departed := s.departed + [Departure(s.slots[i].client, writing)]);
    if s.continuous then
      if ok then cleared.(succeeded := Saturated(s.succeeded)) else cleared.(failed := Saturated(s.failed))
    else cleared.(outcomes := s.outcomes[s.slots[i].client.outcome := if ok then Succeeded else Failed])
  }

  /** `stop_at` */
  function StopAt(s: Server, now: nat): Server {
    if s.stopping then s else s.(stopping := true, drainDeadline := now + s.limits.drain)
  }

  // ----- Deadlines -----

  function Expire(s: Server, now: nat, i: nat): Server
    requires i < |s.slots|
  {
    if s.slots[i].Free? then s
    else if now >= s.slots[i].client.deadline || (s.stopping && now >= s.drainDeadline) then Finish(s, i, false)
    else s
  }

  function ExpireTo(s: Server, now: nat, n: nat): Server
    requires n <= |s.slots|
    ensures |ExpireTo(s, now, n).slots| == |s.slots|
  {
    if n == 0 then s else Expire(ExpireTo(s, now, n - 1), now, n - 1)
  }

  function OutcomeAt(s: Server, k: nat): Option<Outcome> {
    if k in s.outcomes then Some(s.outcomes[k]) else None
  }

  function ReportOf(s: Server): Report {
    if s.continuous then Summary(s.admitted, s.succeeded, s.failed)
    else Outcomes(seq(s.admitted, k requires 0 <= k => OutcomeAt(s, k)))
  }

  function Stopping(s: Server, now: nat): Server {
    if !s.continuous && !s.stopping && now >= s.admissionDeadline then StopAt(s, s.admissionDeadline) else s
  }

  /** `deadlines` */
  function Deadlines(s: Server, clock: Option<nat>): Server {
    if Done(s) then s
    else if clock.None? then FailedServer(s)
    else
      var t := Stopping(s, clock.value);
      var u := ExpireTo(t, clock.value, |t.slots|);
      if u.stopping && u.active == 0 then u.(ending := Reported(ReportOf(u))) else u
  }

  // ----- Admission -----

  datatype Accepted = NoConnection | AcceptFailed | Connection(id: nat, fd: int, configured: bool)

  function FirstFree(slots: seq<Slot>): (i: nat)
    ensures i <= |slots| && (i < |slots| ==> slots[i].Free?)
    ensures forall k :: 0 <= k < i ==> slots[k].Busy?
  {
    if slots == [] then 0
    else var i := FirstFree(slots[..|slots| - 1]);
         if i < |slots| - 1 then i else if slots[|slots| - 1].Free? then |slots| - 1 else |slots|
  }

  function Admit(s: Server, now: nat, id: nat, fd: int, i: nat): Server
    requires i < |s.slots|
  {
    var client := Client(if s.streaming then Start else Read, fd, id, s.admitted, now + s.limits.clientTimeout, false, 0, 0, 0);
    s.(slots := s.slots[i := Busy(client)], admitted := s.admitted + 1, active := s.active + 1, history := s.history + [id])
  }

  /** `accept_client` */
  function Accept(s: Server, now: nat, a: Accepted): Server {
    if s.stopping || s.active == s.limits.concurrency then s
    else if s.admitted == SIZE_MAX then FailedServer(s)
    else match a
      case NoConnection => s
      case AcceptFailed => FailedServer(s)
      case Connection(id, fd, configured) =>
        var i := FirstFree(s.slots);
        if i == |s.slots| then s
        else
          var t := Admit(s, now, id, fd, i);
          var u := if configured then t else Finish(t, i, false);
          if !u.continuous && u.admitted == u.limits.clients then StopAt(u, now) else u
  }

  // ----- Readiness -----

  /** What a socket does when it is used: bytes moved, end of input, try again, or an error. */
  datatype Io = Moved(count: nat) | Eof | Again | Broken | Invalid

  function WithClient(s: Server, i: nat, c: Client): Server
    requires i < |s.slots|
  {
    s.(slots := s.slots[i := Busy(c)])
  }

  /** `read_client` */
  function ReadFrom(s: Server, i: nat, io: Io): Server
    requires i < |s.slots| && s.slots[i].Busy?
  {
    var c := s.slots[i].client;
    match io
    case Moved(n) =>
      if n > s.limits.requestLimit - c.received then Finish(s, i, false)
      else WithClient(s, i, c.(received := c.received + n))
    case Eof => WithClient(s, i, c.(phase := Start))
    case Again => s
    case Broken => Finish(s, i, false)
    case Invalid => Finish(s, i, false)
  }

  /** `read_stream_chunk`: the handler goes on with the bytes, with the end of input or with an error. */
  function StreamFrom(s: Server, i: nat, io: Io): Server
    requires i < |s.slots| && s.slots[i].Busy?
  {
    var c := s.slots[i].client;
    match io
    case Moved(n) =>
      if n > s.limits.requestLimit - c.received then WithClient(s, i, c.(phase := Run))
      else WithClient(s, i, c.(phase := Run, received := c.received + n))
    case Eof => WithClient(s, i, c.(phase := Run))
    case Again => s
    case Broken => WithClient(s, i, c.(phase := Run))
    case Invalid => Finish(s, i, false)
  }

  function Least(a: nat, b: nat): nat {
    if a < b then a else b
  }

  /** `write_client`; the host moves no more bytes than it is offered. */
  function WriteTo(s: Server, i: nat, io: Io): Server
    requires i < |s.slots| && s.slots[i].Busy? && s.slots[i].client.sent <= s.slots[i].client.length
  {
    var c := s.slots[i].client;
    if io.Invalid? then Finish(s, i, false)
    else if c.sent == c.length then Finish(s, i, true, true)
    else match io
      case Moved(n) =>
        var t := WithClient(s, i, c.(sent := c.sent + Least(n, c.length - c.sent)));
        if n == 0 then Finish(s, i, false, true)
        else if t.slots[i].client.sent == c.length then Finish(t, i, true, true)
        else t
      case Again => s
      case _ => Finish(s, i, false, true)
  }

  function Deliver(s: Server, i: nat, io: Io): Server
    requires i < |s.slots| && s.slots[i].Busy? && s.slots[i].client.sent <= s.slots[i].client.length
  {
    match s.slots[i].client.phase
    case Read => ReadFrom(s, i, io)
    case StreamRead => StreamFrom(s, i, io)
    case Write => WriteTo(s, i, io)
    case Start => if io.Invalid? then Finish(s, i, false) else s
    case Run => if io.Invalid? then Finish(s, i, false) else s
  }

  /** One entry of a readiness snapshot. */
  datatype Watch = Listener | Watched(slot: nat, fd: int, identity: nat)

  function WatchOf(s: Server, i: nat): seq<Watch>
    requires i < |s.slots|
  {
    if s.slots[i].Free? || s.slots[i].client.phase.Start? || s.slots[i].client.phase.Run? then []
    else [Watched(i, s.slots[i].client.fd, s.slots[i].client.outcome)]
  }

  function Rotated(first: nat, j: nat, n: nat): (i: nat)
    requires n > 0
    ensures i < n
  {
    (first + j) % n
  }

  function WatchedTo(s: Server, n: nat): seq<Watch>
    requires |s.slots| > 0
  {
    if n == 0 then [] else WatchedTo(s, n - 1) + WatchOf(s, Rotated(s.nextIo, n - 1, |s.slots|))
  }

  function Snapshot(s: Server): seq<Watch>
    requires |s.slots| > 0
  {
    (if !s.stopping && s.active < s.limits.concurrency then [Listener] else []) + WatchedTo(s, |s.slots|)
  }

  datatype Ready = Quiet | ListenerBroken | Accepting(accepted: Accepted) | Socket(io: Io)

  datatype Turn = Turn(clock: Option<nat>, ready: Ready)

  /** The client a snapshot entry was taken from is still the one in its slot. */
  predicate Current(s: Server, w: Watch) {
    && w.Watched? && w.slot < |s.slots| && s.slots[w.slot].Busy?
    && s.slots[w.slot].client.fd == w.fd && s.slots[w.slot].client.outcome == w.identity
  }

  predicate SentOk(s: Server) {
    forall i :: 0 <= i < |s.slots| && s.slots[i].Busy? ==> s.slots[i].client.sent <= s.slots[i].client.length
  }

  /** One entry of the readiness loop, after its deadlines have been applied. */
  function ServeOne(s: Server, w: Watch, now: nat, ready: Ready): Server {
    if ready.Quiet? then s
    else if w.Listener? then
      if s.stopping then s
      else if ready.ListenerBroken? then FailedServer(s)
      else if ready.Accepting? then Accept(s, now, ready.accepted)
      else s
    else if !Current(s, w) || !SentOk(s) || !ready.Socket? then s
    else Deliver(s, w.slot, ready.io)
  }

  /** The readiness loop of `tcp_server_poll`; tells whether it ran to its end. */
  function Serve(s: Server, watches: seq<Watch>, turns: seq<Turn>): (Server, bool)
    requires |watches| == |turns|
    decreases |watches|
  {
    if watches == [] || Done(s) then (s, true)
    else
      var t := Deadlines(s, turns[0].clock);
      if Done(t) || turns[0].clock.None? then (t, false)
      else Serve(ServeOne(t, watches[0], turns[0].clock.value, turns[0].ready), watches[1..], turns[1..])
  }

  datatype Polled = PollFailed | Interrupted | NothingReady | SomeReady

  /** The second half of a poll: the snapshot is served unless a deadline ended the server. */
  function Awake(t: Server, watches: seq<Watch>, polled: Polled, after: Option<nat>, turns: seq<Turn>, last: Option<nat>): Server
    requires |t.slots| > 0
  {
    var u := Deadlines(t, after);
    if Done(u) || polled.NothingReady? || |watches| != |turns| then u
    else
      var (v, whole) := Serve(u, watches, turns);
      if whole then Deadlines(v.(nextIo := (v.nextIo + 1) % |t.slots|), last) else v
  }

  /** `tcp_server_poll` */
  function Poll(s: Server, before: Option<nat>, polled: Polled, after: Option<nat>, turns: seq<Turn>, last: Option<nat>): Server {
    var t := Deadlines(s, before);
    if Done(t) || |t.slots| == 0 then t
    else if polled.PollFailed? then FailedServer(t)
    else if polled.Interrupted? then t
    else Awake(t, Snapshot(t), polled, after, turns, last)
  }

  // ----- Handlers -----

  datatype Handled = BadResult | ErrorResult | Reply(length: nat)

  /** What one dispatched instruction of a handler leads to. */
  datatype Progress = Yields | Waits | AsksForInput | Completes(handled: Handled) | Traps

  datatype Work = Work(clock: Option<nat>, starts: bool, progress: Progress, after: Option<nat>)

  /** `handler_result` */
  function HandlerResult(s: Server, i: nat, h: Handled): Server
    requires i < |s.slots| && s.slots[i].Busy?
  {
    match h
    case BadResult => TrappedServer(s)
    case ErrorResult => Finish(s, i, false)
    case Reply(length) =>
      if length > s.limits.responseLimit then Finish(s, i, false)
      else WithClient(s, i, s.slots[i].client.(phase := Write, execution := false, length := length, sent := 0))
  }

  function Started(s: Server, i: nat, ok: bool): Server
    requires i < |s.slots|
  {
    if s.slots[i].Free? || !s.slots[i].client.phase.Start? then s
    else if !ok then TrappedServer(s)
    else WithClient(s, i, s.slots[i].client.(phase := Run, execution := true))
  }

  predicate Runs(s: Server, i: nat)
    requires i < |s.slots|
  {
    s.slots[i].Busy? && s.slots[i].client.phase.Run?
  }

  /** The dispatched instruction may make the handler wait for input. */
  function Dispatched(s: Server, i: nat, p: Progress): Server
    requires i < |s.slots| && Runs(s, i)
  {
    if p.AsksForInput? then WithClient(s, i, s.slots[i].client.(phase := StreamRead)) else s
  }

  function Concluded(s: Server, i: nat, p: Progress): Server
    requires i < |s.slots| && Runs(s, i)
  {
    match p
    case Completes(h) => HandlerResult(s, i, h)
    case Traps => TrappedServer(s)
    case _ => s
  }

  /** One turn of the handler loop of `tcp_server_advance`, after the deadlines of its condition. */
  function Turned(s: Server, i: nat, w: Work): Server
    requires i < |s.slots|
  {
    var t := Started(s, i, w.starts);
    if Done(t) || !Runs(t, i) then t
    else
      var u := Deadlines(Dispatched(t, i, w.progress), w.after);
      if Done(u) || i >= |u.slots| || !Runs(u, i) then u else Concluded(u, i, w.progress)
  }

  /** The handler loop; `work(k)` is what happens in its turn `k`. */
  function AdvanceLoop(s: Server, budget: nat, idle: nat, k: nat, work: nat -> Work): Server
    decreases budget, |s.slots| - idle
  {
    if budget == 0 then s
    else
      var t := Deadlines(s, work(k).clock);
      if Done(t) || idle >= |s.slots| || |t.slots| != |s.slots| || t.nextHandler >= |t.slots| then t
      else
        var i := t.nextHandler;
        var started := Started(t.(nextHandler := (i + 1) % |t.slots|), i, work(k).starts);
        var u := Turned(t.(nextHandler := (i + 1) % |t.slots|), i, work(k));
        if Done(u) || |u.slots| != |s.slots| then u
        else if !Runs(started, i) then AdvanceLoop(u, budget, idle + 1, k + 1, work)
        else if work(k).progress.Yields? && Runs(u, i) then AdvanceLoop(u, budget - 1, 0, k + 1, work)
        else AdvanceLoop(u, budget - 1, idle + 1, k + 1, work)
  }

  /** `tcp_server_advance` */
  function Advance(s: Server, clock: Option<nat>, budget: nat, work: nat -> Work): Server {
    var t := Deadlines(s, clock);
    if Done(t) then t else AdvanceLoop(t, budget, 0, 0, work)
  }

  /** `tcp_server_stop` */
  function Stop(s: Server, clock: Option<nat>, again: Option<nat>): Server {
    var t := Deadlines(s, clock);
    if Done(t) || clock.None? then t else Deadlines(StopAt(t, clock.value), again)
  }
}
