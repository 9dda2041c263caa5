/** What the server keeps in every run. */
module ServerProofs {
  import opened ServerModel

  // ----- Invariant -----

  function Occupied(slots: seq<Slot>): nat {
    if slots == [] then 0 else Occupied(slots[..|slots| - 1]) + if slots[|slots| - 1].Busy? then 1 else 0
  }

  /** Admission `k` is the client in some slot. */
  predicate Held(slots: seq<Slot>, k: nat) {
    exists i :: 0 <= i < |slots| && slots[i].Busy? && slots[i].client.outcome == k
  }

  predicate ClientOk(s: Server, c: Client) {
    c.outcome < s.admitted == |s.history| && c.connection == s.history[c.outcome]
  }

  /** Within its limits, with an execution exactly while its handler runs or waits for input, and with
      something left to write if it writes a response that is not empty. */
  predicate SizeOk(s: Server, c: Client) {
    && (c.execution <==> c.phase.Run? || c.phase.StreamRead?)
    && c.received <= s.limits.requestLimit && c.sent <= c.length <= s.limits.responseLimit
    && Unsent(c)
  }

  predicate Unsent(c: Client) {
    c.phase.Write? ==> c.length == 0 || c.sent < c.length
  }

  predicate SizesOk(s: Server) {
    forall i :: 0 <= i < |s.slots| && s.slots[i].Busy? ==> SizeOk(s, s.slots[i].client)
  }

  /** Live clients are different admissions. */
  predicate ClientsOk(s: Server) {
    && (forall i :: 0 <= i < |s.slots| && s.slots[i].Busy? ==> ClientOk(s, s.slots[i].client))
    && (forall i, j :: 0 <= i < j < |s.slots| && s.slots[i].Busy? && s.slots[j].Busy? ==>
          s.slots[i].client.outcome != s.slots[j].client.outcome)
  }

  predicate SlotsOk(s: Server) {
    && 0 < |s.slots| == s.limits.concurrency && s.nextHandler < |s.slots|
    && s.active == Occupied(s.slots) && s.admitted == |s.history| <= SIZE_MAX
    && (Done(s) ==> s.active == 0)
  }

  /** Every admission is accounted for: a live client or an outcome. */
  predicate Accounted(s: Server) {
    if s.continuous then s.admitted == s.active + s.succeeded + s.failed
    else
      && s.admitted <= s.limits.clients <= SERVER_CLIENTS
      && (!Done(s) && !s.stopping ==> s.admitted < s.limits.clients)
      && (forall k :: 0 <= k < s.admitted ==> (k in s.outcomes) != Held(s.slots, k))
      && (forall k :: k in s.outcomes ==> k < s.admitted)
  }

  /** The client left in the middle of a write that had sent its whole response. */
  predicate Whole(d: Departure) {
    d.writing && d.client.phase.Write? && d.client.sent == d.client.length
  }

  function Wholes(ds: seq<Departure>): nat {
    if ds == [] then 0 else Wholes(ds[..|ds| - 1]) + if Whole(ds[|ds| - 1]) then 1 else 0
  }

  /** Admission `k` has left. */
  predicate Departed(ds: seq<Departure>, k: nat) {
    exists j :: 0 <= j < |ds| && ds[j].client.outcome == k
  }

  predicate DepartureOk(s: Server, d: Departure) {
    && d.client.outcome < s.admitted == |s.history| && d.client.connection == s.history[d.client.outcome]
    && !Held(s.slots, d.client.outcome) && (!d.writing ==> Unsent(d.client))
  }

  predicate RecordedAs(s: Server, d: Departure) {
    d.client.outcome in s.outcomes && (s.outcomes[d.client.outcome].Succeeded? <==> Whole(d))
  }

  /** No admission leaves twice, and each is counted by the way it left. */
  predicate DeparturesOk(s: Server) {
    && (forall j :: 0 <= j < |s.departed| ==> DepartureOk(s, s.departed[j]))
    && (forall j, k :: 0 <= j < k < |s.departed| ==> s.departed[j].client.outcome != s.departed[k].client.outcome)
    && (if s.continuous then
          s.succeeded == Wholes(s.departed) && s.succeeded + s.failed == |s.departed|
        else
          && (forall j :: 0 <= j < |s.departed| ==> RecordedAs(s, s.departed[j]))
          && (forall k :: k in s.outcomes ==> Departed(s.departed, k)))
  }

  /** Kept also in the middle of a write. */
  predicate Core(s: Server) {
    && SlotsOk(s) && ClientsOk(s) && DeparturesOk(s)
    && (s.ending.Live? || s.ending.Reported? ==> Accounted(s))
    && (s.ending.Reported? ==> s.ending.report == ReportOf(s))
  }

  predicate Inv(s: Server) {
    Core(s) && SizesOk(s)
  }

  // ----- Slots -----

  lemma {:induction false} OccupiedUpdate(slots: seq<Slot>, i: nat, x: Slot)
    requires i < |slots|
    ensures Occupied(slots[i := x]) == Occupied(slots) - (if slots[i].Busy? then 1 else 0) + (if x.Busy? then 1 else 0)
  {
    var n := |slots| - 1;
    if i < n {
      OccupiedUpdate(slots[..n], i, x);
      assert slots[i := x][..n] == slots[..n][i := x];
    } else {
      assert slots[i := x][..n] == slots[..n];
    }
  }

  lemma {:induction false} OccupiedBound(slots: seq<Slot>)
    ensures Occupied(slots) <= |slots|
    ensures Occupied(slots) == 0 <==> forall i :: 0 <= i < |slots| ==> slots[i].Free?
    ensures Occupied(slots) < |slots| ==> exists i :: 0 <= i < |slots| && slots[i].Free?
  {
    if slots != [] {
      var n := |slots| - 1;
      OccupiedBound(slots[..n]);
      assert forall i :: 0 <= i < n ==> slots[..n][i] == slots[i];
      if Occupied(slots[..n]) < n {
        var i :| 0 <= i < n && slots[..n][i].Free?;
        assert slots[i].Free?;
      }
    }
  }

  // ----- Single operations -----

  lemma EmptiedKeeps(s: Server, e: Ending)
    requires SlotsOk(s) && DeparturesOk(s) && !e.Reported? && !e.Live?
    ensures Inv(Emptied(s).(ending := e))
  {
    OccupiedBound(Emptied(s).slots);
    hide Occupied, RecordedAs;
    EmptiedDepartures(s, e);
  }

  lemma EmptiedDepartures(s: Server, e: Ending)
    requires DeparturesOk(s)
    ensures DeparturesOk(Emptied(s).(ending := e))
  {
    var t := Emptied(s).(ending := e);
    forall j | 0 <= j < |t.departed|
      ensures DepartureOk(t, t.departed[j]) && (!t.continuous ==> RecordedAs(t, t.departed[j]))
    {
      assert DepartureOk(s, s.departed[j]) && (!s.continuous ==> RecordedAs(s, s.departed[j]));
    }
  }

  /** Departures depend only on who is held, on the outcomes and on the counters. */
  lemma SameDepartures(s: Server, t: Server)
    requires DeparturesOk(s) && t.departed == s.departed && t.outcomes == s.outcomes && t.continuous == s.continuous
    requires t.succeeded == s.succeeded && t.failed == s.failed && s.history <= t.history && t.admitted == |t.history|
    requires forall k :: 0 <= k < s.admitted && !Held(s.slots, k) ==> !Held(t.slots, k)
    ensures DeparturesOk(t)
  {
    hide Held;
    forall j | 0 <= j < |t.departed|
      ensures DepartureOk(t, t.departed[j]) && (!t.continuous ==> RecordedAs(t, t.departed[j]))
    {
      assert DepartureOk(s, s.departed[j]) && (!s.continuous ==> RecordedAs(s, s.departed[j]));
    }
  }

  /** The leaving client was held, so it had not left before. */
  lemma FinishLeavesOnce(s: Server, i: nat, ok: bool, writing: bool, j: nat)
    requires ClientsOk(s) && DeparturesOk(s) && i < |s.slots| && s.slots[i].Busy?
    requires j <= |s.departed| && (!writing ==> Unsent(s.slots[i].client))
    ensures var t := Finish(s, i, ok, writing);
            DepartureOk(t, t.departed[j]) && (j < |s.departed| ==> t.departed[j].client.outcome != s.slots[i].client.outcome)
  {
    hide Held, RecordedAs;
    NotHeld(s, i);
    NowHeld(s.slots, i);
    if j < |s.departed| {
      assert DepartureOk(s, s.departed[j]);
      HeldUpdate(s.slots, i, Free, s.departed[j].client.outcome);
    }
  }

  lemma FinishRecords(s: Server, i: nat, ok: bool, writing: bool)
    requires ClientsOk(s) && DeparturesOk(s) && i < |s.slots| && s.slots[i].Busy? && !s.continuous
    requires !writing ==> Unsent(s.slots[i].client)
    requires ok == Whole(Departure(s.slots[i].client, writing))
    ensures var t := Finish(s, i, ok, writing);
            && (forall j :: 0 <= j < |t.departed| ==> RecordedAs(t, t.departed[j]))
            && (forall k :: k in t.outcomes ==> Departed(t.departed, k))
  {
    hide Held, DepartureOk;
    var t, n := Finish(s, i, ok, writing), |s.departed|;
    forall j | 0 <= j < |t.departed| ensures RecordedAs(t, t.departed[j]) {
      if j < n {
        FinishLeavesOnce(s, i, ok, writing, j);
        assert RecordedAs(s, s.departed[j]);
      }
    }
    forall k | k in t.outcomes ensures Departed(t.departed, k) {
      DepartedLonger(s.departed, Departure(s.slots[i].client, writing), k);
    }
  }

  lemma FinishDepartures(s: Server, i: nat, ok: bool, writing: bool)
    requires SlotsOk(s) && ClientsOk(s) && Accounted(s) && DeparturesOk(s) && i < |s.slots| && s.slots[i].Busy?
    requires !writing ==> Unsent(s.slots[i].client)
    requires ok == Whole(Departure(s.slots[i].client, writing))
    ensures DeparturesOk(Finish(s, i, ok, writing))
  {
    hide Occupied, Held, DepartureOk, RecordedAs, Departed;
    var t, n := Finish(s, i, ok, writing), |s.departed|;
    forall j | 0 <= j <= n
      ensures DepartureOk(t, t.departed[j]) && (j < n ==> t.departed[j].client.outcome != s.slots[i].client.outcome)
    {
      FinishLeavesOnce(s, i, ok, writing, j);
    }
    if s.continuous {
      OccupiedPositive(s.slots, i);
      assert t.departed[..n] == s.departed;
    } else {
      FinishRecords(s, i, ok, writing);
    }
  }

  lemma DepartedLonger(ds: seq<Departure>, d: Departure, k: nat)
    ensures Departed(ds + [d], k) <==> Departed(ds, k) || d.client.outcome == k
  {
    if Departed(ds, k) {
      var j :| 0 <= j < |ds| && ds[j].client.outcome == k;
      assert (ds + [d])[j].client.outcome == k;
    }
    if d.client.outcome == k {
      assert (ds + [d])[|ds|].client.outcome == k;
    }
  }

  lemma HeldUpdate(slots: seq<Slot>, i: nat, x: Slot, k: nat)
    requires i < |slots|
    requires slots[i].Busy? ==> slots[i].client.outcome != k
    requires x.Busy? ==> x.client.outcome != k
    ensures Held(slots[i := x], k) <==> Held(slots, k)
  {
    if Held(slots, k) {
      var j :| 0 <= j < |slots| && slots[j].Busy? && slots[j].client.outcome == k;
      assert slots[i := x][j] == slots[j];
    }
    if Held(slots[i := x], k) {
      var j :| 0 <= j < |slots| && slots[i := x][j].Busy? && slots[i := x][j].client.outcome == k;
      assert slots[j] == slots[i := x][j];
    }
  }

  lemma NotHeld(s: Server, i: nat)
    requires ClientsOk(s) && i < |s.slots| && s.slots[i].Busy?
    ensures !Held(s.slots[i := Free], s.slots[i].client.outcome)
  {
  }

  lemma FinishAccounted(s: Server, i: nat, ok: bool, writing: bool)
    requires SlotsOk(s) && ClientsOk(s) && Accounted(s) && i < |s.slots| && s.slots[i].Busy? && !Done(s)
    ensures Accounted(Finish(s, i, ok, writing))
  {
    hide Held, Occupied;
    var c := s.slots[i].client;
    OccupiedUpdate(s.slots, i, Free);
    if !s.continuous {
      var t := Finish(s, i, ok, writing);
      NotHeld(s, i);
      forall k | 0 <= k < t.admitted
        ensures (k in t.outcomes) != Held(t.slots, k)
      {
        if k != c.outcome {
          HeldUpdate(s.slots, i, Free, k);
        }
      }
    } else {
      OccupiedPositive(s.slots, i);
    }
  }

  lemma {:induction false} OccupiedPositive(slots: seq<Slot>, i: nat)
    requires i < |slots| && slots[i].Busy?
    ensures Occupied(slots) > 0
  {
    OccupiedBound(slots);
  }

  /** A client leaves as a success exactly when a write has sent its whole response. */
  lemma FinishKeeps(s: Server, i: nat, ok: bool, writing: bool := false)
    requires Inv(s) && i < |s.slots| && s.slots[i].Busy? && !Done(s)
    requires ok == Whole(Departure(s.slots[i].client, writing))
    ensures Inv(Finish(s, i, ok, writing)) && !Done(Finish(s, i, ok, writing))
  {
    hide Core;
    FinishCore(s, i, ok, writing);
  }

  lemma FinishCore(s: Server, i: nat, ok: bool, writing: bool)
    requires Core(s) && i < |s.slots| && s.slots[i].Busy? && !Done(s) && (!writing ==> Unsent(s.slots[i].client))
    requires ok == Whole(Departure(s.slots[i].client, writing))
    ensures Core(Finish(s, i, ok, writing)) && !Done(Finish(s, i, ok, writing))
  {
    hide Held, Accounted, Occupied, DeparturesOk;
    FinishDepartures(s, i, ok, writing);
    FinishAccounted(s, i, ok, writing);
    OccupiedUpdate(s.slots, i, Free);
    assert ClientsOk(Finish(s, i, ok, writing));
  }

  lemma StopAtKeeps(s: Server, now: nat)
    requires Inv(s) && !Done(s)
    ensures Inv(StopAt(s, now))
  {
    hide Held, Occupied;
  }

  lemma WithClientKeeps(s: Server, i: nat, c: Client)
    requires Inv(s) && i < |s.slots| && s.slots[i].Busy? && !Done(s)
    requires c.outcome == s.slots[i].client.outcome && ClientOk(s, c) && SizeOk(s, c)
    ensures Inv(WithClient(s, i, c))
  {
    hide Core;
    WithClientCore(s, i, c);
  }

  lemma WithClientCore(s: Server, i: nat, c: Client)
    requires Core(s) && i < |s.slots| && s.slots[i].Busy? && !Done(s)
    requires c.outcome == s.slots[i].client.outcome && ClientOk(s, c)
    ensures Core(WithClient(s, i, c))
  {
    hide Occupied, Held;
    var t := WithClient(s, i, c);
    OccupiedUpdate(s.slots, i, Busy(c));
    assert ClientsOk(t);
    forall k | 0 <= k < t.admitted
      ensures Held(t.slots, k) == Held(s.slots, k)
    {
      SameHeld(s.slots, i, c, k);
    }
    SameDepartures(s, t);
    hide DeparturesOk;
  }

  lemma SameHeld(slots: seq<Slot>, i: nat, c: Client, k: nat)
    requires i < |slots| && slots[i].Busy? && c.outcome == slots[i].client.outcome
    ensures Held(slots[i := Busy(c)], k) <==> Held(slots, k)
  {
    if Held(slots, k) {
      var j :| 0 <= j < |slots| && slots[j].Busy? && slots[j].client.outcome == k;
      assert slots[i := Busy(c)][j].client.outcome == k;
    }
    if Held(slots[i := Busy(c)], k) {
      var j :| 0 <= j < |slots| && slots[i := Busy(c)][j].Busy? && slots[i := Busy(c)][j].client.outcome == k;
      assert slots[j].client.outcome == k;
    }
  }

  // ----- Admission -----

  /** Where stopping is not in question. */
  predicate InvStopping(s: Server) {
    Inv(s.(stopping := true))
  }

  lemma AdmitKeeps(s: Server, now: nat, id: nat, fd: int, i: nat)
    requires Inv(s) && !Done(s) && !s.stopping && s.admitted < SIZE_MAX && i < |s.slots| && s.slots[i].Free?
    ensures InvStopping(Admit(s, now, id, fd, i))
  {
    hide Held, Occupied;
    var t := Admit(s, now, id, fd, i);
    OccupiedUpdate(s.slots, i, t.slots[i]);
    assert ClientsOk(t.(stopping := true));
    NowHeld(t.slots, i);
    forall k | 0 <= k < s.admitted
      ensures Held(t.slots, k) == Held(s.slots, k)
    {
      HeldUpdate(s.slots, i, t.slots[i], k);
    }
    SameDepartures(s, t.(stopping := true));
    hide DeparturesOk;
  }

  lemma NowHeld(slots: seq<Slot>, i: nat)
    requires i < |slots| && slots[i].Busy?
    ensures Held(slots, slots[i].client.outcome)
  {
  }

  lemma AdmissionSettles(s: Server, now: nat)
    requires InvStopping(s) && !Done(s)
    ensures Inv(if !s.continuous && s.admitted == s.limits.clients then StopAt(s, now) else s)
  {
    hide Held, Occupied;
  }

  lemma AcceptKeeps(s: Server, now: nat, a: Accepted)
    requires Inv(s) && !Done(s)
    ensures Inv(Accept(s, now, a))
  {
    hide Inv, Finish, Admit, StopAt;
    InvParts(s);
    EmptiedKeeps(s, FailedEarly);
    if a.Connection? && !s.stopping && s.admitted < SIZE_MAX && FirstFree(s.slots) < |s.slots| {
      AcceptConnection(s, now, a.id, a.fd, a.configured);
    }
  }

  lemma InvParts(s: Server)
    requires Inv(s)
    ensures SlotsOk(s) && ClientsOk(s) && DeparturesOk(s)
  {
  }

  lemma AcceptConnection(s: Server, now: nat, id: nat, fd: int, configured: bool)
    requires Inv(s) && !Done(s) && !s.stopping && s.admitted < SIZE_MAX && FirstFree(s.slots) < |s.slots|
    ensures var i := FirstFree(s.slots);
            var t := Admit(s, now, id, fd, i);
            var u := if configured then t else Finish(t, i, false);
            Inv(if !u.continuous && u.admitted == u.limits.clients then StopAt(u, now) else u)
  {
    var i := FirstFree(s.slots);
    var t := Admit(s, now, id, fd, i);
    AdmitKeeps(s, now, id, fd, i);
    hide Inv, StopAt;
    if configured {
      AdmissionSettles(t, now);
    } else {
      FinishKeeps(t.(stopping := true), i, false);
      assert Finish(t.(stopping := true), i, false) == Finish(t, i, false).(stopping := true);
      AdmissionSettles(Finish(t, i, false), now);
    }
  }

  // ----- Deadlines -----

  lemma ExpireKeeps(s: Server, now: nat, i: nat)
    requires Inv(s) && !Done(s) && i < |s.slots|
    ensures Inv(Expire(s, now, i)) && !Done(Expire(s, now, i))
  {
    hide Inv, Finish;
    if s.slots[i].Busy? {
      FinishKeeps(s, i, false);
    }
  }

  lemma {:induction false} ExpireToKeeps(s: Server, now: nat, n: nat)
    requires Inv(s) && !Done(s) && n <= |s.slots|
    ensures Inv(ExpireTo(s, now, n)) && !Done(ExpireTo(s, now, n))
  {
    hide Inv, Expire;
    if n > 0 {
      ExpireToKeeps(s, now, n - 1);
      ExpireKeeps(ExpireTo(s, now, n - 1), now, n - 1);
    }
  }

  lemma StoppingKeeps(s: Server, now: nat)
    requires Inv(s) && !Done(s)
    ensures Inv(Stopping(s, now)) && !Done(Stopping(s, now))
  {
    hide Inv;
    StopAtKeeps(s, s.admissionDeadline);
  }

  lemma ReportKeeps(s: Server)
    requires Inv(s) && !Done(s) && s.active == 0
    ensures Inv(s.(ending := Reported(ReportOf(s))))
  {
    hide Held, Occupied;
  }

  lemma DeadlinesKeeps(s: Server, clock: Option<nat>)
    requires Inv(s)
    ensures Inv(Deadlines(s, clock))
  {
    InvParts(s);
    hide Inv, ExpireTo, Stopping, ReportOf;
    EmptiedKeeps(s, FailedEarly);
    if !Done(s) && clock.Some? {
      StoppingKeeps(s, clock.value);
      var t := Stopping(s, clock.value);
      ExpireToKeeps(t, clock.value, |t.slots|);
      var u := ExpireTo(t, clock.value, |t.slots|);
      if u.active == 0 {
        ReportKeeps(u);
      }
    }
  }

  // ----- Readiness -----

  lemma ClientAt(s: Server, i: nat)
    requires Inv(s) && i < |s.slots| && s.slots[i].Busy?
    ensures ClientOk(s, s.slots[i].client) && SizeOk(s, s.slots[i].client)
  {
  }

  lemma ReadKeeps(s: Server, i: nat, io: Io)
    requires Inv(s) && !Done(s) && i < |s.slots| && s.slots[i].Busy?
    ensures s.slots[i].client.phase.Read? ==> Inv(ReadFrom(s, i, io))
    ensures s.slots[i].client.phase.StreamRead? ==> Inv(StreamFrom(s, i, io))
  {
    hide Inv, Finish, WithClient;
    var c := s.slots[i].client;
    ClientAt(s, i);
    FinishKeeps(s, i, false);
    var n := if io.Moved? && io.count <= s.limits.requestLimit - c.received then io.count else 0;
    if c.phase.Read? {
      WithClientKeeps(s, i, c.(phase := Start));
      WithClientKeeps(s, i, c.(received := c.received + n));
    } else if c.phase.StreamRead? {
      WithClientKeeps(s, i, c.(phase := Run));
      WithClientKeeps(s, i, c.(phase := Run, received := c.received + n));
    }
  }

  lemma WriteKeeps(s: Server, i: nat, io: Io)
    requires Inv(s) && !Done(s) && i < |s.slots| && s.slots[i].Busy? && s.slots[i].client.sent <= s.slots[i].client.length
    requires s.slots[i].client.phase.Write?
    ensures Inv(WriteTo(s, i, io))
  {
    hide Inv, Finish;
    var c := s.slots[i].client;
    ClientAt(s, i);
    FinishKeeps(s, i, false);
    FinishKeeps(s, i, c.sent == c.length, true);
    if io.Moved? {
      var d := c.(sent := c.sent + Least(io.count, c.length - c.sent));
      if d.sent == c.length {
        LastWriteKeeps(s, i, d);
      } else {
        WithClientKeeps(s, i, d);
      }
    }
  }

  lemma LastWriteKeeps(s: Server, i: nat, d: Client)
    requires Inv(s) && !Done(s) && i < |s.slots| && s.slots[i].Busy? && d == s.slots[i].client.(sent := d.length)
    requires d.phase.Write?
    ensures Inv(Finish(WithClient(s, i, d), i, true, true))
  {
    ClientAt(s, i);
    hide Core;
    WithClientCore(s, i, d);
    FinishCore(WithClient(s, i, d), i, true, true);
  }

  lemma ServeOneKeeps(s: Server, w: Watch, now: nat, ready: Ready)
    requires Inv(s) && !Done(s)
    ensures Inv(ServeOne(s, w, now, ready))
  {
    InvParts(s);
    hide Inv, Finish, Accept, ReadFrom, StreamFrom, WriteTo;
    EmptiedKeeps(s, FailedEarly);
    if ready.Accepting? {
      AcceptKeeps(s, now, ready.accepted);
    }
    if Current(s, w) && SentOk(s) && ready.Socket? {
      ReadKeeps(s, w.slot, ready.io);
      if s.slots[w.slot].client.phase.Write? {
        WriteKeeps(s, w.slot, ready.io);
      }
      FinishKeeps(s, w.slot, false);
    }
  }

  lemma {:induction false} ServeKeeps(s: Server, watches: seq<Watch>, turns: seq<Turn>)
    requires Inv(s) && |watches| == |turns|
    ensures Inv(Serve(s, watches, turns).0)
    decreases |watches|
  {
    hide Inv, Deadlines, ServeOne;
    if watches != [] && !Done(s) {
      var t := Deadlines(s, turns[0].clock);
      DeadlinesKeeps(s, turns[0].clock);
      if !Done(t) && turns[0].clock.Some? {
        ServeOneKeeps(t, watches[0], turns[0].clock.value, turns[0].ready);
        ServeKeeps(ServeOne(t, watches[0], turns[0].clock.value, turns[0].ready), watches[1..], turns[1..]);
      }
    }
  }

  lemma NextIoKeeps(s: Server, n: nat)
    requires Inv(s)
    ensures Inv(s.(nextIo := n))
  {
    hide Held, Occupied;
  }

  lemma AwakeKeeps(t: Server, watches: seq<Watch>, polled: Polled, after: Option<nat>, turns: seq<Turn>, last: Option<nat>)
    requires Inv(t) && |t.slots| > 0
    ensures Inv(Awake(t, watches, polled, after, turns, last))
  {
    hide Inv, Deadlines, Serve;
    var u := Deadlines(t, after);
    DeadlinesKeeps(t, after);
    if |watches| == |turns| {
      ServeKeeps(u, watches, turns);
      var v := Serve(u, watches, turns).0;
      NextIoKeeps(v, (v.nextIo + 1) % |t.slots|);
      DeadlinesKeeps(v.(nextIo := (v.nextIo + 1) % |t.slots|), last);
    }
  }

  lemma PollKeeps(s: Server, before: Option<nat>, polled: Polled, after: Option<nat>, turns: seq<Turn>, last: Option<nat>)
    requires Inv(s)
    ensures Inv(Poll(s, before, polled, after, turns, last))
  {
    hide Inv, Deadlines, Snapshot, Awake;
    var t := Deadlines(s, before);
    DeadlinesKeeps(s, before);
    InvParts(t);
    EmptiedKeeps(t, FailedEarly);
    if |t.slots| > 0 {
      AwakeKeeps(t, Snapshot(t), polled, after, turns, last);
    }
  }

  // ----- Handlers -----

  lemma HandlerResultKeeps(s: Server, i: nat, h: Handled)
    requires Inv(s) && !Done(s) && i < |s.slots| && s.slots[i].Busy?
    ensures Inv(HandlerResult(s, i, h))
  {
    hide Inv, Finish, WithClient;
    InvParts(s);
    EmptiedKeeps(s, TrappedEarly);
    FinishKeeps(s, i, false);
    ClientAt(s, i);
    if h.Reply? && h.length <= s.limits.responseLimit {
      WithClientKeeps(s, i, s.slots[i].client.(phase := Write, execution := false, length := h.length, sent := 0));
    }
  }

  lemma StartKeeps(s: Server, i: nat)
    requires Inv(s) && !Done(s) && i < |s.slots| && s.slots[i].Busy?
    ensures Inv(WithClient(s, i, s.slots[i].client.(phase := Run, execution := true)))
  {
    hide Inv, WithClient;
    ClientAt(s, i);
    WithClientKeeps(s, i, s.slots[i].client.(phase := Run, execution := true));
  }

  lemma AskKeeps(s: Server, i: nat)
    requires Inv(s) && !Done(s) && i < |s.slots| && Runs(s, i)
    ensures Inv(WithClient(s, i, s.slots[i].client.(phase := StreamRead)))
  {
    hide Inv, WithClient;
    ClientAt(s, i);
    WithClientKeeps(s, i, s.slots[i].client.(phase := StreamRead));
  }

  lemma TurnedKeeps(s: Server, i: nat, w: Work)
    requires Inv(s) && !Done(s) && i < |s.slots|
    ensures Inv(Turned(s, i, w))
  {
    hide Inv, Deadlines, HandlerResult;
    InvParts(s);
    EmptiedKeeps(s, TrappedEarly);
    if s.slots[i].Busy? {
      StartKeeps(s, i);
    }
    var t := Started(s, i, w.starts);
    if !Done(t) && Runs(t, i) {
      AskKeeps(t, i);
      var u := Deadlines(Dispatched(t, i, w.progress), w.after);
      DeadlinesKeeps(Dispatched(t, i, w.progress), w.after);
      if !Done(u) && i < |u.slots| && Runs(u, i) {
        InvParts(u);
        EmptiedKeeps(u, TrappedEarly);
        if w.progress.Completes? {
          HandlerResultKeeps(u, i, w.progress.handled);
        }
      }
    }
  }

  lemma NextHandlerKeeps(s: Server, n: nat)
    requires Inv(s) && n < |s.slots|
    ensures Inv(s.(nextHandler := n))
  {
    hide Held, Occupied;
  }

  lemma {:induction false} AdvanceLoopKeeps(s: Server, budget: nat, idle: nat, k: nat, work: nat -> Work)
    requires Inv(s)
    ensures Inv(AdvanceLoop(s, budget, idle, k, work))
    decreases budget, |s.slots| - idle
  {
    hide Inv, Deadlines, Turned, Started, Runs;
    if budget > 0 {
      var t := Deadlines(s, work(k).clock);
      DeadlinesKeeps(s, work(k).clock);
      if !Done(t) && idle < |s.slots| && |t.slots| == |s.slots| && t.nextHandler < |t.slots| {
        var i := t.nextHandler;
        NextHandlerKeeps(t, (i + 1) % |t.slots|);
        var n := t.(nextHandler := (i + 1) % |t.slots|);
        TurnedKeeps(n, i, work(k));
        var u := Turned(n, i, work(k));
        if !Done(u) && |u.slots| == |s.slots| {
          AdvanceLoopKeeps(u, budget - 1, 0, k + 1, work);
          AdvanceLoopKeeps(u, budget - 1, idle + 1, k + 1, work);
          AdvanceLoopKeeps(u, budget, idle + 1, k + 1, work);
        }
      }
    }
  }

  // ----- Runs -----

  /** The public calls. */
  datatype Event =
    | PollEvent(before: Option<nat>, polled: Polled, after: Option<nat>, turns: seq<Turn>, last: Option<nat>)
    | AdvanceEvent(clock: Option<nat>, budget: nat, work: nat -> Work)
    | StopEvent(clock: Option<nat>, again: Option<nat>)

  function Step(s: Server, e: Event): Server {
    match e
    case PollEvent(before, polled, after, turns, last) => Poll(s, before, polled, after, turns, last)
    case AdvanceEvent(clock, budget, work) => Advance(s, clock, budget, work)
    case StopEvent(clock, again) => Stop(s, clock, again)
  }

  lemma StepKeeps(s: Server, e: Event)
    requires Inv(s)
    ensures Inv(Step(s, e))
  {
    hide Inv, Deadlines, AdvanceLoop, Poll;
    match e {
      case PollEvent(before, polled, after, turns, last) => PollKeeps(s, before, polled, after, turns, last);
      case AdvanceEvent(clock, budget, work) =>
        DeadlinesKeeps(s, clock);
        AdvanceLoopKeeps(Deadlines(s, clock), budget, 0, 0, work);
      case StopEvent(clock, again) =>
        DeadlinesKeeps(s, clock);
        var t := Deadlines(s, clock);
        if !Done(t) && clock.Some? {
          StopAtKeeps(t, clock.value);
          DeadlinesKeeps(StopAt(t, clock.value), again);
        }
    }
  }

  ghost function RunServer(s: Server, events: seq<Event>): Server {
    if events == [] then s else Step(RunServer(s, events[..|events| - 1]), events[|events| - 1])
  }

  predicate ValidLimits(l: Limits, continuous: bool) {
    && 0 < l.concurrency <= SERVER_CONCURRENCY
    && (!continuous ==> 0 < l.clients <= SERVER_CLIENTS && l.concurrency <= l.clients)
  }

  /** `tcp_server_start_mode` with valid arguments and a working listener. */
  function StartedServer(l: Limits, continuous: bool, streaming: bool, admissionDeadline: nat): Server {
    Server(l, continuous, streaming, seq(l.concurrency, i => Free), map[], 0, 0, 0, 0, 0, 0, admissionDeadline, 0, false, Live, [], [])
  }

  lemma StartedKeeps(l: Limits, continuous: bool, streaming: bool, deadline: nat)
    requires ValidLimits(l, continuous)
    ensures Inv(StartedServer(l, continuous, streaming, deadline))
  {
    OccupiedBound(StartedServer(l, continuous, streaming, deadline).slots);
  }

  lemma {:induction false} RunKeeps(s: Server, events: seq<Event>)
    requires Inv(s)
    ensures Inv(RunServer(s, events))
  {
    hide Inv, Step;
    if events != [] {
      RunKeeps(s, events[..|events| - 1]);
      StepKeeps(RunServer(s, events[..|events| - 1]), events[|events| - 1]);
    }
  }

  /** The state after some run of public calls, from any valid start. */
  ghost predicate Reachable(s: Server) {
    exists l: Limits, continuous: bool, streaming: bool, deadline: nat, events: seq<Event> ::
      ValidLimits(l, continuous) && RunServer(StartedServer(l, continuous, streaming, deadline), events) == s
  }

  lemma ReachableInv(s: Server)
    requires Reachable(s)
    ensures Inv(s)
  {
    hide Inv;
    var l: Limits, continuous: bool, streaming: bool, deadline: nat, events: seq<Event> :|
      ValidLimits(l, continuous) && RunServer(StartedServer(l, continuous, streaming, deadline), events) == s;
    StartedKeeps(l, continuous, streaming, deadline);
    RunKeeps(StartedServer(l, continuous, streaming, deadline), events);
  }

  // ----- Results -----

  /** The count of active clients is the number of occupied slots, within the concurrency limit. */
  lemma ActiveClients(s: Server)
    requires Reachable(s)
    ensures s.active == Occupied(s.slots) <= s.limits.concurrency
  {
    ReachableInv(s);
    OccupiedBound(s.slots);
  }

  /** A continuous server loses no connection: until it traps or fails, every admission is active,
      succeeded or failed, and the final summary adds up. What it counts as succeeded is the
      admissions that left with their whole response sent, as failed the others that left. */
  lemma ContinuousBalance(s: Server)
    requires Reachable(s) && s.continuous && (s.ending.Live? || s.ending.Reported?)
    ensures s.admitted == s.active + s.succeeded + s.failed
    ensures s.succeeded == Wholes(s.departed) && s.failed == |s.departed| - Wholes(s.departed)
    ensures s.ending.Reported? ==>
              && s.ending.report == Summary(s.admitted, s.succeeded, s.failed)
              && s.admitted == s.succeeded + s.failed == |s.departed|
  {
    ReachableInv(s);
  }

  /** A finite server has, for every admission, either one live client or one outcome. */
  lemma FiniteBalance(s: Server, k: nat)
    requires Reachable(s) && !s.continuous && (s.ending.Live? || s.ending.Reported?) && k < s.admitted
    ensures s.admitted <= s.limits.clients <= SERVER_CLIENTS
    ensures k in s.outcomes <==> !Held(s.slots, k)
    ensures forall i, j :: 0 <= i < j < |s.slots| && s.slots[i].Busy? && s.slots[j].Busy? ==>
              s.slots[i].client.outcome != s.slots[j].client.outcome
  {
    ReachableInv(s);
  }

  /** A normal finish reports an outcome for every admission, in order. */
  lemma FiniteReport(s: Server, k: nat)
    requires Reachable(s) && !s.continuous && s.ending.Reported? && k < s.admitted
    ensures s.ending.report.Outcomes? && |s.ending.report.list| == s.admitted
    ensures s.ending.report.list[k].Some? && k in s.outcomes && s.ending.report.list[k].value == s.outcomes[k]
    ensures exists j :: 0 <= j < |s.departed| && LeftAs(s, j, k, s.ending.report.list[k].value)
    ensures forall j, o :: 0 <= j < |s.departed| && LeftAs(s, j, k, o) ==> s.ending.report.list[k] == Some(o)
  {
    ReachableInv(s);
    OccupiedBound(s.slots);
    assert !Held(s.slots, k);
    assert Departed(s.departed, k);
    var j :| 0 <= j < |s.departed| && s.departed[j].client.outcome == k;
    assert RecordedAs(s, s.departed[j]);
    assert LeftAs(s, j, k, s.outcomes[k]);
  }

  /** The departure `j` is that of admission `k`, which succeeded if its whole response was sent. */
  predicate LeftAs(s: Server, j: nat, k: nat, o: Outcome)
    requires j < |s.departed|
  {
    s.departed[j].client.outcome == k && o == if Whole(s.departed[j]) then Succeeded else Failed
  }

  /** An admission leaves at most once, and its outcome is known from then on. */
  lemma LeavesOnce(s: Server, j: nat)
    requires Reachable(s) && j < |s.departed|
    ensures var k := s.departed[j].client.outcome;
            && k < s.admitted == |s.history| && !Held(s.slots, k) && s.departed[j].client.connection == s.history[k]
            && (forall i :: 0 <= i < |s.departed| && s.departed[i].client.outcome == k ==> i == j)
            && (!s.continuous ==> k in s.outcomes && LeftAs(s, j, k, s.outcomes[k]))
  {
    hide Held;
    ReachableInv(s);
    assert DepartureOk(s, s.departed[j]);
    assert !s.continuous ==> RecordedAs(s, s.departed[j]);
  }

  /** A response that is not empty decides alone: its admission left as a success exactly when all of
      it was sent. An empty one must also be written, before the deadline of its client. */
  lemma ResponseDecides(s: Server, j: nat)
    requires Reachable(s) && j < |s.departed|
    ensures var d := s.departed[j];
            && (d.client.length > 0 ==> (Whole(d) <==> d.client.phase.Write? && d.client.sent == d.client.length))
            && (d.client.length == 0 && d.client.sent == 0 ==> (Whole(d) <==> d.client.phase.Write? && d.writing))
  {
    hide Held;
    ReachableInv(s);
    assert DepartureOk(s, s.departed[j]);
  }

  /** An empty response whose client is late counts as failed although nothing of it is missing. */
  lemma EmptyResponseLost(s: Server, now: nat, i: nat)
    requires Inv(s) && !Done(s) && i < |s.slots| && s.slots[i].Busy? && s.slots[i].client.phase.Write?
    requires s.slots[i].client.length == 0 && now >= s.slots[i].client.deadline
    ensures var r, c := Expire(s, now, i), s.slots[i].client;
            && c.sent == c.length && r.departed == s.departed + [Departure(c, false)]
            && (if s.continuous then r.failed == s.failed + 1 else r.outcomes[c.outcome].Failed?)
  {
    hide Held, Occupied, DeparturesOk;
    ClientAt(s, i);
    OccupiedPositive(s.slots, i);
  }

  /** Buffers stay within the limits, so no remaining size is ever negative, and a handler runs or waits
      for input exactly while its client has an execution. */
  lemma WithinLimits(s: Server, i: nat)
    requires Reachable(s) && i < |s.slots| && s.slots[i].Busy?
    ensures s.slots[i].client.execution <==> s.slots[i].client.phase.Run? || s.slots[i].client.phase.StreamRead?
    ensures s.slots[i].client.received <= s.limits.requestLimit
    ensures s.slots[i].client.sent <= s.slots[i].client.length <= s.limits.responseLimit
  {
    ReachableInv(s);
    ClientAt(s, i);
  }

  // ----- Deadlines are enforced -----

  predicate Alive(s: Server, now: nat, i: nat)
    requires i < |s.slots|
  {
    s.slots[i].Busy? ==> now < s.slots[i].client.deadline && (s.stopping ==> now < s.drainDeadline)
  }

  lemma {:induction false} ExpiredTo(s: Server, now: nat, n: nat)
    requires n <= |s.slots|
    ensures forall i :: 0 <= i < n ==> Alive(ExpireTo(s, now, n), now, i)
    ensures forall i :: n <= i < |s.slots| ==> ExpireTo(s, now, n).slots[i] == s.slots[i]
    ensures ExpireTo(s, now, n).stopping == s.stopping && ExpireTo(s, now, n).drainDeadline == s.drainDeadline
  {
    if n > 0 {
      ExpiredTo(s, now, n - 1);
      var t := ExpireTo(s, now, n - 1);
      var u := Expire(t, now, n - 1);
      forall i | 0 <= i < n
        ensures Alive(u, now, i)
      {
        assert i < n - 1 ==> Alive(t, now, i);
      }
    }
  }

  /** After its deadlines are applied a live server has no client past its deadline, none at all past
      the drain deadline, and is not stopping without clients. */
  lemma DeadlinesEnforced(s: Server, now: nat)
    requires Inv(s) && !Done(Deadlines(s, Some(now)))
    ensures forall i :: 0 <= i < |Deadlines(s, Some(now)).slots| ==> Alive(Deadlines(s, Some(now)), now, i)
    ensures Deadlines(s, Some(now)).stopping ==> Deadlines(s, Some(now)).active > 0 && now < Deadlines(s, Some(now)).drainDeadline
    ensures !s.continuous && now >= s.admissionDeadline ==> Deadlines(s, Some(now)).stopping
  {
    var t := Stopping(s, now);
    ExpiredTo(t, now, |t.slots|);
    DeadlinesKeeps(s, Some(now));
    hide ExpireTo;
    var u := Deadlines(s, Some(now));
    assert u == ExpireTo(t, now, |t.slots|);
    InvParts(u);
    OccupiedBound(u.slots);
    if u.stopping {
      var i :| 0 <= i < |u.slots| && u.slots[i].Busy?;
      assert Alive(u, now, i);
    }
  }

  // ----- Readiness goes to the admission it was captured for -----

  lemma FinishGrows(s: Server, i: nat, ok: bool, writing: bool := false)
    requires i < |s.slots| && s.slots[i].Busy?
    ensures Finish(s, i, ok, writing).history == s.history
  {
  }

  lemma {:induction false} ExpireGrows(s: Server, now: nat, n: nat)
    requires n <= |s.slots|
    ensures ExpireTo(s, now, n).history == s.history
  {
    if n > 0 {
      ExpireGrows(s, now, n - 1);
    }
  }

  lemma DeadlinesGrows(s: Server, clock: Option<nat>)
    ensures Deadlines(s, clock).history == s.history
  {
    if clock.Some? {
      var t := Stopping(s, clock.value);
      ExpireGrows(t, clock.value, |t.slots|);
    }
  }

  lemma AcceptGrows(s: Server, now: nat, a: Accepted)
    ensures s.history <= Accept(s, now, a).history
  {
  }

  lemma DeliverGrows(s: Server, i: nat, io: Io)
    requires i < |s.slots| && s.slots[i].Busy? && s.slots[i].client.sent <= s.slots[i].client.length
    ensures Deliver(s, i, io).history == s.history
  {
    hide Finish;
    FinishGrows(s, i, true, true);
    FinishGrows(s, i, false, true);
    FinishGrows(s, i, false);
    if io.Moved? {
      var c := s.slots[i].client;
      FinishGrows(WithClient(s, i, c.(sent := c.sent + Least(io.count, c.length - c.sent))), i, true, true);
    }
  }

  lemma ServeOneGrows(s: Server, w: Watch, now: nat, ready: Ready)
    ensures s.history <= ServeOne(s, w, now, ready).history
  {
    hide Accept, Deliver;
    if ready.Accepting? {
      AcceptGrows(s, now, ready.accepted);
    }
    if Current(s, w) && SentOk(s) && ready.Socket? {
      DeliverGrows(s, w.slot, ready.io);
    }
  }

  /** The state in which entry `k` of a snapshot is served. */
  ghost function Before(s: Server, watches: seq<Watch>, turns: seq<Turn>, k: nat): Server
    requires |watches| == |turns| && k < |watches|
    decreases k
  {
    var t := Deadlines(s, turns[0].clock);
    if k == 0 || Done(t) || turns[0].clock.None? then t
    else Before(ServeOne(t, watches[0], turns[0].clock.value, turns[0].ready), watches[1..], turns[1..], k - 1)
  }

  lemma {:induction false} BeforeGrows(s: Server, watches: seq<Watch>, turns: seq<Turn>, k: nat)
    requires |watches| == |turns| && k < |watches| && Inv(s)
    ensures Inv(Before(s, watches, turns, k)) && s.history <= Before(s, watches, turns, k).history
    decreases k
  {
    hide Inv, Deadlines, ServeOne;
    var t := Deadlines(s, turns[0].clock);
    DeadlinesKeeps(s, turns[0].clock);
    DeadlinesGrows(s, turns[0].clock);
    if k > 0 && !Done(t) && turns[0].clock.Some? {
      ServeOneKeeps(t, watches[0], turns[0].clock.value, turns[0].ready);
      ServeOneGrows(t, watches[0], turns[0].clock.value, turns[0].ready);
      BeforeGrows(ServeOne(t, watches[0], turns[0].clock.value, turns[0].ready), watches[1..], turns[1..], k - 1);
    }
  }

  lemma {:induction false} WatchedAreCurrent(s: Server, n: nat, k: nat)
    requires |s.slots| > 0 && k < |WatchedTo(s, n)|
    ensures Current(s, WatchedTo(s, n)[k])
  {
    if n > 0 && k < |WatchedTo(s, n - 1)| {
      WatchedAreCurrent(s, n - 1, k);
    }
  }

  /** However slots are freed and reused while a snapshot is served, an entry is delivered only to
      the very connection it was captured for. */
  lemma ReadinessIdentity(t: Server, u: Server, turns: seq<Turn>, k: nat)
    requires Inv(t) && Inv(u) && t.history <= u.history && |Snapshot(t)| == |turns| && k < |turns|
    ensures var w, b := Snapshot(t)[k], Before(u, Snapshot(t), turns, k);
            Current(b, w) ==> Current(t, w) && b.slots[w.slot].client.connection == t.slots[w.slot].client.connection
  {
    var w, b := Snapshot(t)[k], Before(u, Snapshot(t), turns, k);
    BeforeGrows(u, Snapshot(t), turns, k);
    if Current(b, w) {
      CapturedIsCurrent(t, k);
      ClientAt(t, w.slot);
      ClientAt(b, w.slot);
    }
  }

  lemma CapturedIsCurrent(t: Server, k: nat)
    requires |t.slots| > 0 && k < |Snapshot(t)| && Snapshot(t)[k].Watched?
    ensures Current(t, Snapshot(t)[k])
  {
    var n := |Snapshot(t)| - |WatchedTo(t, |t.slots|)|;
    assert Snapshot(t)[k] == WatchedTo(t, |t.slots|)[k - n];
    WatchedAreCurrent(t, |t.slots|, k - n);
  }

  lemma {:induction false} WatchedFrom(s: Server, n: nat, j: nat, w: Watch)
    requires |s.slots| > 0 && j < n && WatchOf(s, Rotated(s.nextIo, j, |s.slots|)) == [w]
    ensures w in WatchedTo(s, n)
    decreases n
  {
    hide Rotated;
    if j < n - 1 {
      WatchedFrom(s, n - 1, j, w);
    }
  }

  /** The rotation reaches every slot. */
  lemma RotationReaches(first: nat, n: nat, i: nat) returns (j: nat)
    requires i < n
    ensures j < n && Rotated(first, j, n) == i
  {
    var r := first % n;
    j := if i >= r then i - r else i + n - r;
    var q := first / n;
    assert first == q * n + r;
    if i >= r {
      ModIs(first + j, n, q, i);
    } else {
      assert (q + 1) * n == q * n + n;
      ModIs(first + j, n, q + 1, i);
    }
  }

  lemma Multiple(d: int, n: int)
    requires n > 0
    ensures d >= 1 ==> d * n >= n
    ensures d <= -1 ==> d * n <= -n
  {
  }

  lemma ModIs(x: nat, n: nat, q: nat, r: nat)
    requires r < n && x == q * n + r
    ensures x % n == r
  {
    var p, e := x / n, x % n;
    assert x == p * n + e;
    var d := q - p;
    assert d * n == q * n - p * n;
    Multiple(d, n);
  }

  /** A snapshot misses nobody: it holds the listener exactly while the server has room and does not
      stop, and every client that waits for its socket. */
  lemma SnapshotComplete(s: Server, i: nat)
    requires i < |s.slots|
    ensures Listener in Snapshot(s) <==> !s.stopping && s.active < s.limits.concurrency
    ensures s.slots[i].Busy? && !s.slots[i].client.phase.Start? && !s.slots[i].client.phase.Run? ==>
              Watched(i, s.slots[i].client.fd, s.slots[i].client.outcome) in Snapshot(s)
  {
    hide Rotated;
    var n := |s.slots|;
    forall k | 0 <= k < |WatchedTo(s, n)| ensures WatchedTo(s, n)[k].Watched? {
      WatchedAreCurrent(s, n, k);
    }
    if s.slots[i].Busy? && !s.slots[i].client.phase.Start? && !s.slots[i].client.phase.Run? {
      var j := RotationReaches(s.nextIo, n, i);
      WatchedFrom(s, n, j, Watched(i, s.slots[i].client.fd, s.slots[i].client.outcome));
    }
  }
}
