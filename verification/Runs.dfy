/** Whole runs of the handler: any calls, in any order, on any IOCBs, over any
    behaviour of the wire and any honest service. */
module Runs {
  import opened Bytes
  import opened Wire
  import opened Server
  import opened Adapter
  import opened Coupling
  import R = Resident

  datatype Call = Call(op: byte, a: byte, x: byte, iocb: R.Iocb)

  /** What passed between a session and the world: a byte PUT into it, a byte GET
      from it, a WRITE put on the wire for it. */
  datatype Event = Put(sid: nat, value: byte) | Got(sid: nat, value: byte) | Wrote(sid: nat, chunk: Chunk)

  function Tell(h: Hist, e: Event, sid: nat): Hist {
    if e.sid != sid then h
    else match e
      case Put(_, value) => h.(puts := h.puts + [value])
      case Got(_, value) => h.(delivered := h.delivered + [value])
      case Wrote(_, chunk) => h.(writes := h.writes + [chunk])
  }

  /** The events of one session, in order. */
  function StoryOf(events: seq<Event>, sid: nat): Hist {
    if events == [] then NO_HIST
    else Tell(StoryOf(events[..|events| - 1], sid), events[|events| - 1], sid)
  }

  lemma OneMore(events: seq<Event>, e: Event, sid: nat)
    ensures StoryOf(events + [e], sid) == Tell(StoryOf(events, sid), e, sid)
  {
    assert (events + [e])[..|events|] == events;
  }

  function Sends(sid: nat, ws: seq<Chunk>): seq<Event> {
    seq(|ws|, i requires 0 <= i < |ws| => Wrote(sid, ws[i]))
  }

  lemma {:induction false} StoryOfSends(events: seq<Event>, sid: nat, ws: seq<Chunk>, i: nat)
    ensures var h := StoryOf(events, i);
            StoryOf(events + Sends(sid, ws), i) == if i == sid then h.(writes := h.writes + ws) else h
    decreases |ws|
  {
    hide StoryOf;
    if ws == [] {
      assert events + Sends(sid, ws) == events;
    } else {
      var n := |ws| - 1;
      StoryOfSends(events, sid, ws[..n], i);
      assert events + Sends(sid, ws) == (events + Sends(sid, ws[..n])) + [Wrote(sid, ws[n])];
      OneMore(events + Sends(sid, ws[..n]), Wrote(sid, ws[n]), i);
      assert ws == ws[..n] + [ws[n]];
    }
  }

  /** The WRITEs of a run as the wire carries them, each to its session's handle. */
  function OnTheWire(events: seq<Event>, log: seq<Session>): seq<Request> {
    if events == [] then [] else
      var e := events[|events| - 1];
      OnTheWire(events[..|events| - 1], log)
      + if e.Wrote? && e.sid < |log| then [Write(log[e.sid].handle, e.chunk.start % LONG, e.chunk.data)] else []
  }

  lemma {:induction false} OnTheWireJoins(e0: seq<Event>, e1: seq<Event>, log: seq<Session>)
    ensures OnTheWire(e0 + e1, log) == OnTheWire(e0, log) + OnTheWire(e1, log)
    decreases |e1|
  {
    if e1 == [] {
      assert e0 + e1 == e0;
    } else {
      OnTheWireJoins(e0, e1[..|e1| - 1], log);
      assert (e0 + e1)[..|e0 + e1| - 1] == e0 + e1[..|e1| - 1];
    }
  }

  lemma {:induction false} SendsOnTheWire(sid: nat, ws: seq<Chunk>, log: seq<Session>)
    requires sid < |log|
    ensures OnTheWire(Sends(sid, ws), log) == OnWire(log[sid].handle, ws)
    decreases |ws|
  {
    if ws != [] {
      var n := |ws| - 1;
      SendsOnTheWire(sid, ws[..n], log);
      assert Sends(sid, ws)[..n] == Sends(sid, ws[..n]);
      assert OnWire(log[sid].handle, ws) == OnWire(log[sid].handle, ws[..n])
                                            + [Write(log[sid].handle, ws[n].start % LONG, ws[n].data)];
    }
  }

  predicate SidsBelow(events: seq<Event>, n: nat) {
    forall i :: 0 <= i < |events| ==> events[i].sid < n
  }

  lemma {:induction false} SameWire(events: seq<Event>, s: Service, s': Service)
    requires Grows(s, s') && SidsBelow(events, |s.log|)
    ensures OnTheWire(events, s'.log) == OnTheWire(events, s.log)
    decreases |events|
  {
    if events != [] {
      SameWire(events[..|events| - 1], s, s');
    }
  }

  // ---------------------------------------------------------------- one call

  /** The WRITEs a session's history gained. */
  function NewWrites(sid: nat, st: R.State, st': R.State): seq<Chunk> {
    var n := |HistOf(st.account.hist, sid).writes|;
    var ws := HistOf(st'.account.hist, sid).writes;
    if n <= |ws| then ws[n..] else []
  }

  function Byte(sid: nat, put: bool, value: byte): Event {
    if put then Put(sid, value) else Got(sid, value)
  }

  /** The events of a served call: a byte PUT, WRITEs, a byte GET. */
  function Served(sid: nat, puts: seq<byte>, ws: seq<Chunk>, gots: seq<byte>): seq<Event> {
    (if puts == [] then [] else [Put(sid, puts[0])]) + Sends(sid, ws) + (if gots == [] then [] else [Got(sid, gots[0])])
  }

  /** The byte a call PUT: always when it answers success, also when it answers an
      I/O error and its owner was able to write, never otherwise. */
  function PutBy(c: Call, y: byte, h: Half): seq<byte> {
    if c.op == R.PUT && (y == R.SUCCESS || (y == R.IO_ERROR && Writing(h))) then [c.a] else []
  }

  function GotBy(c: Call, y: byte, a: byte): seq<byte> {
    if c.op == R.GET && y == R.SUCCESS then [a] else []
  }

  /** The events of one call with result y and accumulator a. */
  function NewEvents(c: Call, y: byte, a: byte, st: R.State, st': R.State): seq<Event> {
    var f := st.Found(c.x);
    if y == R.BAD_IOCB || f == 2 || c.op == R.OPEN then [] else
      var h := st.At(f);
      Served(h.sid, PutBy(c, y, h), NewWrites(h.sid, st, st'), GotBy(c, y, a))
  }

  ghost predicate Answers(c: Call, y: byte, a: byte, st: R.State, st': R.State) {
    R.Answered(c.op, c.a, c.x, c.iocb, y, a, st, st')
  }

  /** The events tell the histories, and every WRITE of the wire since base. */
  ghost predicate Told(events: seq<Event>, st: R.State, base: seq<Request>) {
    && Matches(events, st.account.hist)
    && SidsBelow(events, |st.account.meter.service.log|)
    && st.account.meter.writes == base + OnTheWire(events, st.account.meter.service.log)
  }

  ghost predicate Matches(events: seq<Event>, hist: map<nat, Hist>) {
    forall sid: nat :: HistOf(hist, sid) == StoryOf(events, sid)
  }

  /** An owner's session is known to the service under the owner's handle. */
  predicate Bound(h: Half, s: Service) {
    Active(h) ==> h.sid < |s.log| && s.log[h.sid].handle == h.o.handle
  }

  lemma OwnersAreBound(me: Half, other: Half, d: Dev, s: Service, hist: map<nat, Hist>)
    requires Coupled(me, other, d, s, hist)
    ensures Bound(me, s) && Bound(other, s)
    ensures Active(me) && Active(other) ==> me.sid != other.sid
  {
  }

  lemma OneByte(events: seq<Event>, sid: nat, put: bool, bytes: seq<byte>, i: nat)
    requires |bytes| <= 1
    ensures var h := StoryOf(events, i);
            StoryOf(events + (if bytes == [] then [] else [Byte(sid, put, bytes[0])]), i) ==
            if i != sid then h else if put then h.(puts := h.puts + bytes) else h.(delivered := h.delivered + bytes)
  {
    hide StoryOf;
    if bytes == [] {
      assert events + [] == events;
    } else {
      OneMore(events, Byte(sid, put, bytes[0]), i);
      assert bytes == [bytes[0]];
    }
  }

  /** One session's story grows as its history does. */
  lemma StoryGrows(events: seq<Event>, sid: nat, puts: seq<byte>, ws: seq<Chunk>, gots: seq<byte>, i: nat)
    requires |puts| <= 1 && |gots| <= 1
    ensures var h := StoryOf(events, i);
            StoryOf(events + Served(sid, puts, ws, gots), i) ==
            if i != sid then h else Hist(h.puts + puts, h.writes + ws, h.delivered + gots)
  {
    hide StoryOf, Sends;
    var p: seq<Event> := if puts == [] then [] else [Byte(sid, true, puts[0])];
    var g: seq<Event> := if gots == [] then [] else [Byte(sid, false, gots[0])];
    OneByte(events, sid, true, puts, i);
    StoryOfSends(events + p, sid, ws, i);
    OneByte(events + p + Sends(sid, ws), sid, false, gots, i);
    assert events + Served(sid, puts, ws, gots) == events + p + Sends(sid, ws) + g;
  }

  lemma WireGrows(events: seq<Event>, sid: nat, puts: seq<byte>, ws: seq<Chunk>, gots: seq<byte>, log: seq<Session>)
    requires |puts| <= 1 && |gots| <= 1 && sid < |log|
    ensures OnTheWire(events + Served(sid, puts, ws, gots), log) == OnTheWire(events, log) + OnWire(log[sid].handle, ws)
  {
    hide OnTheWire, OnWire, Sends;
    var p: seq<Event> := if puts == [] then [] else [Put(sid, puts[0])];
    var g: seq<Event> := if gots == [] then [] else [Got(sid, gots[0])];
    OnTheWireJoins(events, p + Sends(sid, ws) + g, log);
    OnTheWireJoins(p + Sends(sid, ws), g, log);
    OnTheWireJoins(p, Sends(sid, ws), log);
    SendsOnTheWire(sid, ws, log);
    NoWrite(p, log);
    NoWrite(g, log);
  }

  lemma NoWrite(events: seq<Event>, log: seq<Session>)
    requires |events| <= 1 && forall i :: 0 <= i < |events| ==> !events[i].Wrote?
    ensures OnTheWire(events, log) == []
  {
  }

  /** A served call adds its events to both stories, the session's and the wire's. */
  lemma ServedIsTold(events: seq<Event>, c: Call, y: byte, a: byte, st: R.State, st': R.State, base: seq<Request>)
    requires Told(events, st, base) && Answers(c, y, a, st, st')
    requires y != R.BAD_IOCB && st.Found(c.x) < 2 && c.op != R.OPEN
    requires Active(st.At(st.Found(c.x))) && Bound(st.At(st.Found(c.x)), st.account.meter.service)
    ensures Told(events + NewEvents(c, y, a, st, st'), st', base)
  {
    hide Later, OnWire, OnTheWire, StoryOf, Served, Durable, Exhausted, Impeded, EndsExactly, R.Asks;
    var h, s, s' := st.At(st.Found(c.x)), st.account.meter.service, st'.account.meter.service;
    var puts, ws, gots := PutBy(c, y, h), NewWrites(h.sid, st, st'), GotBy(c, y, a);
    var new_ := Served(h.sid, puts, ws, gots);
    SidsStayBelow(events, h.sid, puts, ws, gots, |s.log|, |s'.log|);
    LaterCounts(st.account.meter, st'.account.meter);
    forall i: nat ensures HistOf(st'.account.hist, i) == StoryOf(events + new_, i) {
      assert HistOf(st.account.hist, i) == StoryOf(events, i);
      StoryGrows(events, h.sid, puts, ws, gots, i);
    }
    SameWire(events, s, s');
    SameHandle(s, s', h.sid);
    WireGrows(events, h.sid, puts, ws, gots, s'.log);
  }

  lemma SidsStayBelow(events: seq<Event>, sid: nat, puts: seq<byte>, ws: seq<Chunk>, gots: seq<byte>, n: nat, n': nat)
    requires SidsBelow(events, n) && sid < n
    ensures n <= n' ==> SidsBelow(events + Served(sid, puts, ws, gots), n')
  {
  }

  lemma SameHandle(s: Service, s': Service, sid: nat)
    requires Grows(s, s') && sid < |s.log|
    ensures sid < |s'.log| && s'.log[sid].handle == s.log[sid].handle
  {
  }

  lemma AnsweredIsTold(events: seq<Event>, c: Call, y: byte, a: byte, st: R.State, st': R.State, base: seq<Request>)
    requires Told(events, st, base) && Answers(c, y, a, st, st')
    requires Bound(st.h0, st.account.meter.service) && Bound(st.h1, st.account.meter.service)
    requires c.x % 16 == 0 && c.x < 0x80 && st.Found(c.x) < 2 ==> Active(st.At(st.Found(c.x)))
    ensures Told(events + NewEvents(c, y, a, st, st'), st', base)
  {
    hide R.Serves, R.Opens, Matches, OnTheWire, Later;
    if y != R.BAD_IOCB && st.Found(c.x) < 2 && c.op != R.OPEN {
      ServedIsTold(events, c, y, a, st, st', base);
    } else {
      assert events + NewEvents(c, y, a, st, st') == events;
      if y != R.BAD_IOCB && y != R.NOT_OPEN && y != R.ALREADY_OPEN {
        OpenIsQuiet(c, y, a, st, st');
        LaterCounts(st.account.meter, st'.account.meter);
        SameWire(events, st.account.meter.service, st'.account.meter.service);
      }
    }
  }

  lemma OpenIsQuiet(c: Call, y: byte, a: byte, st: R.State, st': R.State)
    requires Answers(c, y, a, st, st')
    requires y != R.BAD_IOCB && st.Found(c.x) == 2 && c.op == R.OPEN
    ensures st'.account.hist == st.account.hist && Quiet(st.account.meter, st'.account.meter)
  {
  }

  /** The promise for one session, in terms of what callers and wire saw. */
  ghost predicate Kept(se: Session, h: Hist) {
    && se.taken <= h.puts                // taken in order, nothing twice
    && h.delivered <= se.stream          // delivered in order, no gap or repeat
    && WritesOk(h.writes, h.puts)        // WRITEs carry PUT bytes without gap, commit last
    && se.commits <= 1
  }

  lemma ValidKeeps(me: Half, other: Half, d: Dev, s: Service, hist: map<nat, Hist>, events: seq<Event>)
    requires Coupled(me, other, d, s, hist) && Matches(events, hist)
    ensures forall i :: 0 <= i < |s.log| ==> Kept(s.log[i], StoryOf(events, i))
  {
    forall i | 0 <= i < |s.log| ensures Kept(s.log[i], StoryOf(events, i)) {
      assert SessionInv(s.log[i], HistOf(hist, i));
    }
  }

  /** One call: its answer is the gateway's, and its events are told. */
  method Step(r: R.Resident, c: Call, ghost events: seq<Event>, ghost base: seq<Request>)
    returns (y: byte, a: byte, ghost events': seq<Event>)
    requires r.Valid() && r.busy == 0 && Told(events, r.Snap(), base)
    modifies r, r.owners, r.caches, r.packet, r.device
    ensures r.Valid() && r.busy == 0
    ensures a == r.caller_a && Answers(c, y, a, old(r.Snap()), r.Snap())
    ensures events' == events + NewEvents(c, y, a, old(r.Snap()), r.Snap())
    ensures Told(events', r.Snap(), base)
  {
    hide Coupled, Told, NewEvents, R.Answered;
    ghost var st := r.Snap();
    OwnersAreBound(r.HalfAt(0), r.HalfAt(1), r.device.dev, r.device.service, r.hist);
    y := r.Gateway(c.op, c.a, c.x, c.iocb);
    a := r.caller_a;
    AnsweredIsTold(events, c, y, a, st, r.Snap(), base);
    events' := events + NewEvents(c, y, a, st, r.Snap());
  }

  // -------------------------------------------------------------- closed output

  /** Output that was closed successfully: durable, and nobody's any more. */
  ghost predicate Settled(st: R.State, sid: nat) {
    && Durable(st.account.meter.service, st.account.hist, sid)
    && !(Active(st.h0) && st.h0.sid == sid) && !(Active(st.h1) && st.h1.sid == sid)
  }

  predicate ClosesOutput(c: Call, y: byte, st: R.State) {
    && c.op == R.CLOSE && y == R.SUCCESS && st.Found(c.x) < 2 && st.At(st.Found(c.x)).o.mode != INPUT
  }

  lemma CloseSettles(c: Call, y: byte, a: byte, st: R.State, st': R.State)
    requires Answers(c, y, a, st, st') && ClosesOutput(c, y, st)
    requires c.x % 16 == 0 && c.x < 0x80 && st.Found(c.x) < 2 ==> Active(st.At(st.Found(c.x)))
    requires Active(st.h0) && Active(st.h1) ==> st.h0.sid != st.h1.sid
    ensures Settled(st', st.At(st.Found(c.x)).sid)
  {
    hide Durable, Recorded, Impeded, Exhausted, EndsExactly;
  }

  lemma SettledStays(c: Call, y: byte, a: byte, st: R.State, st': R.State, d': Dev, sid: nat)
    requires Answers(c, y, a, st, st') && Settled(st, sid)
    requires Coupled(st'.h0, st'.h1, d', st'.account.meter.service, st'.account.hist)
    requires c.x % 16 == 0 && c.x < 0x80 && st.Found(c.x) < 2 ==> Active(st.At(st.Found(c.x)))
    ensures Settled(st', sid)
  {
    hide Coupled, Impeded, Exhausted, EndsExactly, Later, OnWire, R.Asks, R.NamesUri;
    if y != R.BAD_IOCB && y != R.NOT_OPEN && y != R.ALREADY_OPEN {
      LaterCounts(st.account.meter, st'.account.meter);
      DurableStays(st'.h0, st'.h1, d', st.account.meter.service, st'.account.hist, st'.account.meter.service, sid);
    }
  }

  // -------------------------------------------------------------------- runs

  function EventsOf(calls: seq<Call>, ys: seq<byte>, as_: seq<byte>, states: seq<R.State>): seq<Event>
    requires |calls| == |ys| == |as_| == |states| - 1
  {
    if calls == [] then [] else
      var n := |calls| - 1;
      EventsOf(calls[..n], ys[..n], as_[..n], states[..n + 1])
        + NewEvents(calls[n], ys[n], as_[n], states[n], states[n + 1])
  }

  lemma EventsOfMore(calls: seq<Call>, n: nat, ys: seq<byte>, as_: seq<byte>, states: seq<R.State>, y: byte, a: byte,
                     st: R.State)
    requires n < |calls| && |ys| == |as_| == n == |states| - 1
    ensures EventsOf(calls[..n + 1], ys + [y], as_ + [a], states + [st])
            == EventsOf(calls[..n], ys, as_, states) + NewEvents(calls[n], y, a, states[n], st)
  {
    hide NewEvents;
    assert calls[..n + 1][..n] == calls[..n] && (ys + [y])[..n] == ys && (as_ + [a])[..n] == as_;
    assert (states + [st])[..n + 1] == states;
  }

  /** Each call answered by the gateway, from one state to the next. */
  ghost predicate Chain(calls: seq<Call>, ys: seq<byte>, as_: seq<byte>, states: seq<R.State>) {
    && |calls| == |ys| == |as_| == |states| - 1
    && forall i :: 0 <= i < |calls| ==> Answers(calls[i], ys[i], as_[i], states[i], states[i + 1])
  }

  /** Every output session that was closed successfully is settled at the end. */
  ghost predicate AllSettled(calls: seq<Call>, ys: seq<byte>, states: seq<R.State>) {
    && |calls| == |ys| == |states| - 1
    && forall i :: 0 <= i < |calls| && ClosesOutput(calls[i], ys[i], states[i]) ==>
         Settled(states[|calls|], states[i].At(states[i].Found(calls[i].x)).sid)
  }

  lemma RunBegins(calls: seq<Call>, st: R.State, base: seq<Request>)
    requires st.account.hist == map[] && st.account.meter.writes == base
    ensures Told([], st, base) && Chain(calls[..0], [], [], [st]) && AllSettled(calls[..0], [], [st])
    ensures EventsOf(calls[..0], [], [], [st]) == []
  {
  }

  lemma ChainMore(calls: seq<Call>, n: nat, ys: seq<byte>, as_: seq<byte>, states: seq<R.State>, y: byte, a: byte,
                  st: R.State)
    requires n < |calls| && Chain(calls[..n], ys, as_, states) && Answers(calls[n], y, a, states[n], st)
    ensures Chain(calls[..n + 1], ys + [y], as_ + [a], states + [st])
  {
    hide Answers;
    assert forall i :: 0 <= i < n ==> calls[..n + 1][i] == calls[..n][i];
  }

  lemma WritesAreTraced(device: SioAdapter)
    requires device.Ok()
    ensures device.writes == WritesIn(device.trace)
    ensures forall i, j :: 0 <= i < j < |device.executed| ==> device.executed[i] != device.executed[j]
  {
  }

  lemma TraceIsTold(r: R.Resident, events: seq<Event>, base: seq<Request>)
    requires r.Valid() && Told(events, r.Snap(), base)
    ensures WritesIn(r.device.trace) == base + OnTheWire(events, r.device.service.log)
    ensures forall i, j :: 0 <= i < j < |r.device.executed| ==> r.device.executed[i] != r.device.executed[j]
    ensures Matches(events, r.hist)
  {
    WritesAreTraced(r.device);
  }

  /** Every run: the calls are answered one after the other, their events are the
      whole story of every session and of the WRITEs on the wire, every session's
      promise is kept, closed output is durable, and nothing executes twice. */
  method Run(r: R.Resident, calls: seq<Call>)
    returns (ys: seq<byte>, as_: seq<byte>, ghost states: seq<R.State>, ghost events: seq<Event>)
    requires r.Valid() && r.busy == 0 && r.hist == map[]
    modifies r, r.owners, r.caches, r.packet, r.device
    ensures r.Valid() && r.busy == 0
    ensures Chain(calls, ys, as_, states) && states[0] == old(r.Snap()) && states[|calls|] == r.Snap()
    ensures events == EventsOf(calls, ys, as_, states)
    ensures WritesIn(r.device.trace) == WritesIn(old(r.device.trace)) + OnTheWire(events, r.device.service.log)
    ensures forall i :: 0 <= i < |r.device.service.log| ==> Kept(r.device.service.log[i], StoryOf(events, i))
    ensures AllSettled(calls, ys, states)
    ensures forall i, j :: 0 <= i < j < |r.device.executed| ==> r.device.executed[i] != r.device.executed[j]
  {
    hide Coupled, Told, AllSettled, R.Answered, Kept, EventsOf, Chain, OnTheWire, WritesIn, SioAdapter.Ok;
    ghost var base := r.device.writes;
    WritesAreTraced(r.device);
    ys, as_, states, events := [], [], [r.Snap()], [];
    RunBegins(calls, r.Snap(), base);
    for n := 0 to |calls|
      invariant r.Valid() && r.busy == 0 && Told(events, r.Snap(), base)
      invariant |ys| == |as_| == n == |states| - 1
      invariant Chain(calls[..n], ys, as_, states) && states[0] == old(r.Snap()) && states[n] == r.Snap()
      invariant events == EventsOf(calls[..n], ys, as_, states)
      invariant AllSettled(calls[..n], ys, states)
    {
      OwnersAreBound(r.HalfAt(0), r.HalfAt(1), r.device.dev, r.device.service, r.hist);
      var y, a;
      y, a, events := Step(r, calls[n], events, base);
      EventsOfMore(calls, n, ys, as_, states, y, a, r.Snap());
      ChainMore(calls, n, ys, as_, states, y, a, r.Snap());
      StaySettled(calls, n, ys, states, y, a, r.Snap(), r.device.dev);
      ys, as_, states := ys + [y], as_ + [a], states + [r.Snap()];
    }
    assert calls[..|calls|] == calls;
    TraceIsTold(r, events, base);
    ValidKeeps(r.HalfAt(0), r.HalfAt(1), r.device.dev, r.device.service, r.hist, events);
  }

  lemma StaySettled(calls: seq<Call>, n: nat, ys: seq<byte>, states: seq<R.State>, y: byte, a: byte, st: R.State,
                    d: Dev)
    requires n < |calls| && AllSettled(calls[..n], ys, states) && Answers(calls[n], y, a, states[n], st)
    requires Coupled(st.h0, st.h1, d, st.account.meter.service, st.account.hist)
    requires Active(states[n].h0) && Active(states[n].h1) ==> states[n].h0.sid != states[n].h1.sid
    requires var c := calls[n];
             c.x % 16 == 0 && c.x < 0x80 && states[n].Found(c.x) < 2 ==> Active(states[n].At(states[n].Found(c.x)))
    ensures AllSettled(calls[..n + 1], ys + [y], states + [st])
  {
    hide Coupled, Settled, R.Answered;
    var calls', ys', states' := calls[..n + 1], ys + [y], states + [st];
    forall i | 0 <= i < n + 1 && ClosesOutput(calls'[i], ys'[i], states'[i])
      ensures Settled(st, states'[i].At(states'[i].Found(calls'[i].x)).sid)
    {
      if i == n {
        CloseSettles(calls[n], y, a, states[n], st);
      } else {
        assert calls'[i] == calls[..n][i];
        SettledStays(calls[n], y, a, states[n], st, d, states[i].At(states[i].Found(calls[i].x)).sid);
      }
    }
  }
}
