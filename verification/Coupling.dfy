/** What ties the handler's two owner records to the service behind the wire,
    stated on values, and the lemma for each step the handler takes. */
module Coupling {
  import opened Bytes
  import opened Wire
  import opened Server
  import opened Adapter

  const FREE: nat := 0x80      // OWN has its top bit set
  const INPUT: byte := 4
  const OUTPUT: byte := 8
  const UPDATE: byte := 12

  /** The 16-byte owner record, its handle and offset read as numbers. */
  datatype Owner = Owner(own: byte, mode: byte, handle: nat, offset: nat, len: byte, pos: byte,
                         eof: byte, fault: byte, committed: byte, reading: byte)

  /** An owner with its half of the cache and the session it opened. */
  datatype Half = Half(o: Owner, cache: seq<byte>, sid: nat)

  /** One WRITE put on the wire: the stream position it starts at and its data. */
  datatype Chunk = Chunk(start: nat, data: seq<byte>)

  /** A session as seen from the CIO side: bytes PUT, WRITEs sent, bytes GET. */
  datatype Hist = Hist(puts: seq<byte>, writes: seq<Chunk>, delivered: seq<byte>)

  const NO_HIST := Hist([], [], [])

  function HistOf(hist: map<nat, Hist>, sid: nat): Hist {
    if sid in hist then hist[sid] else NO_HIST
  }

  /** A zero-length WRITE has been sent. */
  predicate Ended(ws: seq<Chunk>) {
    ws != [] && ws[|ws| - 1].data == []
  }

  predicate Carries(c: Chunk, puts: seq<byte>) {
    c.start + |c.data| <= |puts| && c.data == puts[c.start..c.start + |c.data|]
  }

  predicate Follows(a: Chunk, b: Chunk) {
    a.start < b.start <= a.start + |a.data|
  }

  /** The WRITEs of a session carry the PUT bytes from position 0, each starts
      past the start of the one before and leaves no gap, and an empty one is
      the last and stands at the end of everything PUT. */
  predicate WritesOk(ws: seq<Chunk>, puts: seq<byte>) {
    && (ws != [] ==> ws[0].start == 0)
    && (forall i :: 0 <= i < |ws| ==> Carries(ws[i], puts))
    && (forall i :: 0 <= i < |ws| - 1 ==> Follows(ws[i], ws[i + 1]))
    && (Ended(ws) ==> ws[|ws| - 1].start == |puts|)
  }

  ghost predicate SessionInv(se: Session, h: Hist) {
    && se.taken <= h.puts
    && h.delivered <= se.stream
    && WritesOk(h.writes, h.puts)
    && se.commits <= (if Ended(h.writes) then 1 else 0)
  }

  ghost predicate SessionsInv(s: Service, hist: map<nat, Hist>) {
    && ServiceOk(s)
    && (forall i :: i in hist ==> i < |s.log|)
    && (forall i :: 0 <= i < |s.log| ==> SessionInv(s.log[i], HistOf(hist, i)))
  }

  /** A WRITE in flight continues what the service has taken. */
  ghost predicate InFlightOk(d: Dev, s: Service, hist: map<nat, Hist>)
    requires ServiceOk(s)
  {
    d.Busy? ==>
      match Parse(d.req)
      case Write(h, offset, data) =>
        h in s.open ==>
          var se, hs := s.log[s.open[h]], HistOf(hist, s.open[h]);
          && se.taken + data <= hs.puts
          && offset == |se.taken| % LONG
          && (data == [] ==> Ended(hs.writes) && se.commits == 0)
      case _ => true
  }

  predicate Active(h: Half) {
    h.o.own < FREE
  }

  predicate Reader(o: Owner) {
    o.mode == INPUT || o.reading == 1
  }

  predicate InFlightIs(d: Dev, r: Request) {
    d.Busy? && Parse(d.req) == r
  }

  predicate WritePending(d: Dev, handle: nat) {
    d.Busy? && Parse(d.req).Write? && Parse(d.req).handle == handle
  }

  ghost predicate FlagsOk(o: Owner) {
    && o.own <= 0x70
    && (o.mode == INPUT || o.mode == OUTPUT || o.mode == UPDATE)
    && o.fault + o.committed <= 1 && o.reading <= 1 && o.eof <= 1
    && (o.mode == INPUT ==> o.fault == 0 && o.committed == 0 && o.reading == 0)
    && (o.reading == 1 ==> o.mode == UPDATE && o.committed == 1)
    && (!Reader(o) ==> o.eof == 0)
    && o.pos <= 128 && o.len <= 128
  }

  /** Output side, not faulted: everything PUT is with the service or cached. */
  ghost predicate WriterInv(h: Half, se: Session, hs: Hist) {
    && h.o.len <= |h.cache|
    && hs.puts == se.taken + h.cache[..h.o.len]
    && h.o.offset == |se.taken| % LONG
    && hs.delivered == []
    && (h.o.committed == 1 <==> Ended(hs.writes))
    && (h.o.committed == 1 ==> h.o.len == 0 && se.commits == 1)
    && (h.o.committed == 0 ==>
          if hs.writes == [] then se.taken == []
          else var last := hs.writes[|hs.writes| - 1];
               last.start < |se.taken| <= last.start + |last.data|)
  }

  /** Input side: the unread part of the cache is the next part of the stream. */
  ghost predicate ReaderInv(h: Half, se: Session, hs: Hist) {
    && h.o.pos <= h.o.len <= |h.cache|
    && h.o.offset == |hs.delivered| + (h.o.len - h.o.pos)
    && h.o.offset <= |se.stream|
    && h.cache[h.o.pos..h.o.len] == se.stream[|hs.delivered|..h.o.offset]
    && (h.o.eof == 1 ==> h.o.offset == |se.stream|)
    && (if h.o.mode == INPUT then hs.puts == [] && hs.writes == []
        else se.taken == hs.puts && se.commits == 1 && Ended(hs.writes))
  }

  ghost predicate HalfInv(h: Half, d: Dev, s: Service, hist: map<nat, Hist>)
    requires ServiceOk(s)
  {
    && FlagsOk(h.o) && |h.cache| == 128
    && h.o.handle in s.open && s.open[h.o.handle] == h.sid
    && !InFlightIs(d, Close(h.o.handle))
    && var se, hs := s.log[h.sid], HistOf(hist, h.sid);
       if Reader(h.o) then ReaderInv(h, se, hs) && !WritePending(d, h.o.handle)
       else if h.o.fault == 0 then WriterInv(h, se, hs) && !WritePending(d, h.o.handle)
       else true
  }

  ghost predicate Coupled(me: Half, other: Half, d: Dev, s: Service, hist: map<nat, Hist>) {
    && SessionsInv(s, hist)
    && InFlightOk(d, s, hist)
    && (Active(me) ==> HalfInv(me, d, s, hist))
    && (Active(other) ==> HalfInv(other, d, s, hist))
    && (Active(me) && Active(other) ==> me.o.own != other.o.own && me.o.handle != other.o.handle)
  }

  // ---------------------------------------------------------------- progress

  /** Executing the request in flight, whatever it was, keeps the coupling. */
  lemma ExecutionKeepsSessions(d: Dev, s: Service, reply: seq<byte>, s': Service, hist: map<nat, Hist>)
    requires SessionsInv(s, hist) && d.Busy? && InFlightOk(d, s, hist)
    requires Effect(s, d.req, reply, s')
    ensures SessionsInv(s', hist)
  {
    EffectKeepsService(s, d.req, reply, s');
    forall i | 0 <= i < |s'.log| ensures SessionInv(s'.log[i], HistOf(hist, i)) {
      if i < |s.log| {
        assert SessionInv(s.log[i], HistOf(hist, i));
        if Parse(d.req).Open? && s' != s {
          assert s'.log[..|s.log|][i] == s'.log[i];
        }
      }
    }
  }

  lemma ExecutionKeepsHalf(h: Half, d: Dev, s: Service, reply: seq<byte>, d': Dev, s': Service, hist: map<nat, Hist>)
    requires ServiceOk(s) && ServiceOk(s') && d.Busy? && !d'.Busy?
    requires Effect(s, d.req, reply, s')
    requires HalfInv(h, d, s, hist)
    ensures HalfInv(h, d', s', hist)
  {
    if Parse(d.req).Open? && s' != s {
      assert s'.log[..|s.log|][h.sid] == s'.log[h.sid];
    }
  }

  lemma EvolvingKeepsCoupled(me: Half, other: Half, d: Dev, s: Service, d': Dev, s': Service, hist: map<nat, Hist>)
    requires Coupled(me, other, d, s, hist)
    requires Evolves(d, s, d', s')
    ensures Coupled(me, other, d', s', hist)
  {
    if s' != s {
      var r :| Effect(s, d.req, r, s');
      ExecutionKeepsSessions(d, s, r, s', hist);
      if Active(me) {
        ExecutionKeepsHalf(me, d, s, r, d', s', hist);
      }
      if Active(other) {
        ExecutionKeepsHalf(other, d, s, r, d', s', hist);
      }
    }
  }

  /** Putting a request that writes nothing on the wire keeps the coupling, as
      long as a CLOSE names no handle still in use. */
  lemma LaunchKeepsCoupled(me: Half, other: Half, d: Dev, s: Service, hist: map<nat, Hist>, tag: nat, req: seq<byte>)
    requires Coupled(me, other, d, s, hist) && d.Idle?
    requires !Parse(req).Write?
    requires Parse(req).Close? ==>
               && (Active(me) ==> me.o.handle != Parse(req).handle)
               && (Active(other) ==> other.o.handle != Parse(req).handle)
    ensures Coupled(me, other, Busy(tag, req), s, hist)
  {
  }

  /** The same with the exchange played out, wherever it left the device. */
  lemma ExchangeKeepsCoupled(me: Half, other: Half, d: Dev, s: Service, hist: map<nat, Hist>,
                             tag: nat, req: seq<byte>, d': Dev, s': Service)
    requires Coupled(me, other, d, s, hist) && d.Idle?
    requires !Parse(req).Write?
    requires Parse(req).Close? ==>
               && (Active(me) ==> me.o.handle != Parse(req).handle)
               && (Active(other) ==> other.o.handle != Parse(req).handle)
    requires Evolves(Busy(tag, req), s, d', s')
    ensures Coupled(me, other, d', s', hist)
  {
    LaunchKeepsCoupled(me, other, d, s, hist, tag, req);
    EvolvingKeepsCoupled(me, other, Busy(tag, req), s, d', s', hist);
  }

  // ------------------------------------------------------------------- output

  predicate Writing(h: Half) {
    Active(h) && h.o.mode != INPUT && h.o.fault == 0 && h.o.committed == 0
  }

  function WithOwner(h: Half, o: Owner): Half {
    h.(o := o)
  }

  function Sent(hist: map<nat, Hist>, sid: nat, c: Chunk): map<nat, Hist> {
    var h := HistOf(hist, sid);
    hist[sid := h.(writes := h.writes + [c])]
  }

  /** The WRITE an owner would send now. */
  function NextChunk(me: Half, s: Service): Chunk {
    if me.sid < |s.log| && me.o.len <= |me.cache| then Chunk(|s.log[me.sid].taken|, me.cache[..me.o.len])
    else Chunk(0, [])
  }

  lemma HistAfter(hist: map<nat, Hist>, sid: nat, h: Hist, i: nat)
    ensures HistOf(hist[sid := h], i) == if i == sid then h else HistOf(hist, i)
  {
  }

  /** Changing one session's history only concerns that session. */
  lemma SessionsAfter(s: Service, hist: map<nat, Hist>, sid: nat, h: Hist)
    requires SessionsInv(s, hist) && sid < |s.log|
    requires SessionInv(s.log[sid], h)
    ensures SessionsInv(s, hist[sid := h])
  {
    forall i | 0 <= i < |s.log| ensures SessionInv(s.log[i], HistOf(hist[sid := h], i)) {
      HistAfter(hist, sid, h, i);
    }
  }

  lemma OtherAfter(me: Half, other: Half, d: Dev, s: Service, hist: map<nat, Hist>, h: Hist)
    requires Coupled(me, other, d, s, hist) && Active(me)
    ensures Active(other) ==> other.sid != me.sid && HalfInv(other, d, s, hist[me.sid := h])
  {
  }

  lemma CarriesMore(c: Chunk, puts: seq<byte>, a: byte)
    requires Carries(c, puts)
    ensures Carries(c, puts + [a])
  {
    assert (puts + [a])[c.start..c.start + |c.data|] == puts[c.start..c.start + |c.data|];
  }

  lemma PutKeepsWrites(ws: seq<Chunk>, puts: seq<byte>, a: byte)
    requires WritesOk(ws, puts) && !Ended(ws)
    ensures WritesOk(ws, puts + [a])
  {
    forall i | 0 <= i < |ws| ensures Carries(ws[i], puts + [a]) {
      CarriesMore(ws[i], puts, a);
    }
  }

  lemma PutKeepsWriter(me: Half, se: Session, h: Hist, a: byte, me': Half)
    requires WriterInv(me, se, h) && me.o.committed == 0 && me.o.len < 128 == |me.cache|
    requires me'.o == me.o.(pos := me.o.len, len := me.o.len + 1)
    requires me'.cache == me.cache[me.o.len := a]
    ensures WriterInv(me', se, h.(puts := h.puts + [a]))
  {
    assert me'.cache[..me'.o.len] == me.cache[..me.o.len] + [a];
    assert h.puts + [a] == se.taken + (me.cache[..me.o.len] + [a]);
  }

  /** PUT: one byte into the cache is one byte more to account for. */
  lemma CachedByte(me: Half, other: Half, d: Dev, s: Service, hist: map<nat, Hist>, a: byte, me': Half)
    requires Coupled(me, other, d, s, hist) && Writing(me) && me.o.len < 128
    requires me'.o == me.o.(pos := me.o.len, len := me.o.len + 1)
    requires me'.sid == me.sid && me'.cache == me.cache[me.o.len := a]
    ensures var h := HistOf(hist, me.sid);
            Coupled(me', other, d, s, hist[me.sid := h.(puts := h.puts + [a])])
  {
    var se, h := s.log[me.sid], HistOf(hist, me.sid);
    var h' := h.(puts := h.puts + [a]);
    assert SessionInv(se, h);
    PutKeepsWrites(h.writes, h.puts, a);
    PutKeepsWriter(me, se, h, a, me');
    SessionsAfter(s, hist, me.sid, h');
    OtherAfter(me, other, d, s, hist, h');
    HistAfter(hist, me.sid, h', me.sid);
  }

  /** The next WRITE of a sound writer fits the ones sent before it. */
  lemma ChunkFits(me: Half, se: Session, h: Hist)
    requires me.o.committed == 0 && WriterInv(me, se, h) && WritesOk(h.writes, h.puts)
    ensures WritesOk(h.writes + [Chunk(|se.taken|, me.cache[..me.o.len])], h.puts)
  {
    var c := Chunk(|se.taken|, me.cache[..me.o.len]);
    assert Carries(c, h.puts);
  }

  /** What the bounds of an active half come to. */
  lemma Bounded(me: Half, other: Half, d: Dev, s: Service, hist: map<nat, Hist>)
    requires Coupled(me, other, d, s, hist) && Active(me)
    ensures FlagsOk(me.o) && |me.cache| == 128 && me.sid < |s.log| && ServiceOk(s)
    ensures Reader(me.o) ==> me.o.pos <= me.o.len
  {
  }

  /** A committed owner is a reader or has an empty cache. */
  lemma Resting(me: Half, other: Half, d: Dev, s: Service, hist: map<nat, Hist>)
    requires Coupled(me, other, d, s, hist) && Active(me)
    ensures me.o.committed == 1 || me.o.mode == INPUT ==> Reader(me.o) || me.o.len == 0
  {
  }

  lemma WritersDoNotRead(me: Half, other: Half, d: Dev, s: Service, hist: map<nat, Hist>)
    requires Coupled(me, other, d, s, hist) && Writing(me)
    ensures !Reader(me.o)
  {
  }

  /** A writer may be faulted, or its read position moved, at any time. */
  lemma WriterMarked(me: Half, other: Half, d: Dev, s: Service, hist: map<nat, Hist>, me': Half)
    requires Coupled(me, other, d, s, hist) && Writing(me)
    requires me'.sid == me.sid && me'.cache == me.cache
    requires me'.o == me.o.(pos := me'.o.pos, fault := me'.o.fault) && me'.o.pos <= 128 && me'.o.fault <= 1
    ensures Coupled(me', other, d, s, hist)
  {
  }

  /** The record of a WRITE about to be sent, its owner counted as faulted. */
  lemma WriteRecorded(me: Half, other: Half, s: Service, hist: map<nat, Hist>)
    requires Coupled(me, other, Idle, s, hist) && Writing(me)
    ensures Coupled(WithOwner(me, me.o.(fault := 1)), other, Idle, s, Sent(hist, me.sid, NextChunk(me, s)))
  {
    var h := HistOf(hist, me.sid);
    var h' := h.(writes := h.writes + [NextChunk(me, s)]);
    assert SessionInv(s.log[me.sid], h);
    ChunkFits(me, s.log[me.sid], h);
    SessionsAfter(s, hist, me.sid, h');
    OtherAfter(me, other, Idle, s, hist, h');
  }

  lemma WriteContinues(me: Half, other: Half, s: Service, hist: map<nat, Hist>, tag: nat, req: seq<byte>)
    requires Coupled(me, other, Idle, s, hist) && Writing(me)
    requires Parse(req) == Write(me.o.handle, me.o.offset, me.cache[..me.o.len])
    ensures ServiceOk(s) && InFlightOk(Busy(tag, req), s, Sent(hist, me.sid, NextChunk(me, s)))
  {
    assert SessionInv(s.log[me.sid], HistOf(hist, me.sid));
  }

  /** Sending the cached bytes: should the exchange fail, the owner is faulted,
      and the coupling holds whether or not the WRITE reached the device. */
  lemma WriteLaunched(me: Half, other: Half, s: Service, hist: map<nat, Hist>, tag: nat, req: seq<byte>)
    requires Coupled(me, other, Idle, s, hist) && Writing(me)
    requires Parse(req) == Write(me.o.handle, me.o.offset, me.cache[..me.o.len])
    ensures var f := WithOwner(me, me.o.(fault := 1));
            var hist' := Sent(hist, me.sid, NextChunk(me, s));
            Coupled(f, other, Idle, s, hist') && Coupled(f, other, Busy(tag, req), s, hist')
  {
    WriteRecorded(me, other, s, hist);
    WriteContinues(me, other, s, hist, tag, req);
  }

  /** The writer's own account after an acknowledgement of k bytes. */
  lemma AcknowledgedWriter(me: Half, se: Session, h: Hist, k: nat, n: Session, me': Half)
    requires WriterInv(me, se, h) && me.o.committed == 0
    requires k <= me.o.len && (me.o.len > 0 ==> k > 0)
    requires n.taken == se.taken + me.cache[..k] && (me.o.len == 0 ==> n.commits == 1)
    requires me'.o.len == me.o.len - k && me'.o.len <= |me'.cache|
    requires me'.o.offset == Advance(me.o.offset, k)
    requires me'.o.committed == if me.o.len == 0 then 1 else 0
    requires me'.cache[..me'.o.len] == me.cache[k..me.o.len]
    ensures WriterInv(me', n, h.(writes := h.writes + [Chunk(|se.taken|, me.cache[..me.o.len])]))
  {
    assert me.cache[..me.o.len] == me.cache[..k] + me.cache[k..me.o.len];
    assert h.puts == n.taken + me'.cache[..me'.o.len];
    ModAdd(|se.taken|, k);
  }

  /** A WRITE that went out and was executed, before its reply is believed. */
  lemma WriteExecuted(me: Half, other: Half, s: Service, hist: map<nat, Hist>,
                      req: seq<byte>, reply: seq<byte>, s': Service)
    requires Coupled(me, other, Idle, s, hist) && Writing(me)
    requires Parse(req) == Write(me.o.handle, me.o.offset, me.cache[..me.o.len])
    requires Effect(s, req, reply, s')
    ensures Coupled(WithOwner(me, me.o.(fault := 1)), other, Idle, s',
                    Sent(hist, me.sid, NextChunk(me, s)))
  {
    var hist' := Sent(hist, me.sid, NextChunk(me, s));
    WriteLaunched(me, other, s, hist, 0, req);
    assert Evolves(Busy(0, req), s, Idle, s');
    EvolvingKeepsCoupled(WithOwner(me, me.o.(fault := 1)), other, Busy(0, req), s, Idle, s', hist');
  }

  lemma TakenExactly(se: Session, n: Session, data: seq<byte>, k: nat)
    requires se.taken <= n.taken <= se.taken + data && k <= |data| && |n.taken| == |se.taken| + k
    ensures n.taken == se.taken + data[..k]
  {
    assert n.taken == (se.taken + data)[..|n.taken|];
  }

  lemma SessionAcknowledged(me: Half, s: Service, h: Hist, reply: seq<byte>, s': Service, me': Half)
    requires ServiceOk(s) && me.o.handle in s.open && s.open[me.o.handle] == me.sid
    requires me.o.committed == 0 && me.o.len <= 128 == |me.cache|
    requires WriterInv(me, s.log[me.sid], h) && SessionInv(s.log[me.sid], h)
    requires WriteEffect(s, me.o.handle, me.cache[..me.o.len], reply, s')
    requires GrantsCount(reply, CMD_WRITE, me.o.handle)
    requires Count(reply) <= me.o.len && (me.o.len > 0 ==> Count(reply) > 0)
    requires |me'.cache| == 128 && me'.o.len == me.o.len - Count(reply)
    requires me'.o.offset == Advance(me.o.offset, Count(reply))
    requires me'.o.committed == if me.o.len == 0 then 1 else 0
    requires me'.cache[..me'.o.len] == me.cache[Count(reply)..me.o.len]
    ensures WriterInv(me', s'.log[me.sid],
                      h.(writes := h.writes + [Chunk(|s.log[me.sid].taken|, me.cache[..me.o.len])]))
  {
    hide Advance;
    var se, n, data := s.log[me.sid], s'.log[me.sid], me.cache[..me.o.len];
    TakenExactly(se, n, data, Count(reply));
    assert data[..Count(reply)] == me.cache[..Count(reply)];
    AcknowledgedWriter(me, se, h, Count(reply), n, me');
  }

  /** A believed acknowledgement of k bytes: the rest moves to the front. */
  lemma WriteAcknowledged(me: Half, other: Half, s: Service, hist: map<nat, Hist>,
                          req: seq<byte>, reply: seq<byte>, s': Service, me': Half)
    requires Coupled(me, other, Idle, s, hist) && Writing(me)
    requires Parse(req) == Write(me.o.handle, me.o.offset, me.cache[..me.o.len])
    requires Effect(s, req, reply, s') && GrantsCount(reply, CMD_WRITE, me.o.handle)
    requires Count(reply) <= me.o.len && (me.o.len > 0 ==> Count(reply) > 0)
    requires me'.sid == me.sid && |me'.cache| == 128 && me'.o.pos <= 128
    requires me'.o == me.o.(offset := Advance(me.o.offset, Count(reply)), len := me.o.len - Count(reply),
                            pos := me'.o.pos, committed := if me.o.len == 0 then 1 else 0)
    requires me'.cache[..me'.o.len] == me.cache[Count(reply)..me.o.len]
    ensures Coupled(me', other, Idle, s', Sent(hist, me.sid, NextChunk(me, s)))
  {
    hide Advance;
    WriteExecuted(me, other, s, hist, req, reply, s');
    var se, h := s.log[me.sid], HistOf(hist, me.sid);
    assert SessionInv(se, h);
    SessionAcknowledged(me, s, h, reply, s', me');
    HistAfter(hist, me.sid, h.(writes := h.writes + [Chunk(|se.taken|, me.cache[..me.o.len])]), me.sid);
  }

  // -------------------------------------------------------------------- input

  /** A faultless owner of a committed POST starts reading at offset 0. */
  lemma ReadingStarts(me: Half, other: Half, d: Dev, s: Service, hist: map<nat, Hist>, me': Half)
    requires Coupled(me, other, d, s, hist) && Active(me)
    requires me.o.mode == UPDATE && me.o.committed == 1 && me.o.reading == 0
    requires me'.sid == me.sid && me'.cache == me.cache
    requires me'.o == me.o.(offset := 0, len := 0, pos := 0, eof := 0, reading := 1)
    ensures Coupled(me', other, d, s, hist)
  {
  }

  /** GET has handed out the whole stream of a session. */
  ghost predicate Exhausted(s: Service, hist: map<nat, Hist>, sid: nat) {
    sid < |s.log| && HistOf(hist, sid).delivered == s.log[sid].stream
  }

  /** With nothing cached: the whole stream was delivered if and only if OFFSET
      stands at its end, and the end flag says so. */
  ghost predicate EndsExactly(o: Owner, s: Service, hist: map<nat, Hist>, sid: nat) {
    && sid < |s.log|
    && (Exhausted(s, hist, sid) <==> o.offset == |s.log[sid].stream|)
    && (o.eof == 1 ==> Exhausted(s, hist, sid))
  }

  /** With nothing cached, everything was delivered exactly when OFFSET stands at
      the end of the stream, as it does at EOF. */
  lemma AllDelivered(me: Half, other: Half, d: Dev, s: Service, hist: map<nat, Hist>)
    requires Coupled(me, other, d, s, hist) && Active(me)
    ensures !Reader(me.o) ==> me.o.eof == 0
    ensures Reader(me.o) && me.o.pos >= me.o.len ==> EndsExactly(me.o, s, hist, me.sid)
  {
    assert SessionInv(s.log[me.sid], HistOf(hist, me.sid));
  }

  /** The reader's own account after a refill of k bytes at its offset. */
  lemma RefilledReader(me: Half, se: Session, h: Hist, k: nat, last: bool, me': Half)
    requires ReaderInv(me, se, h) && me.o.pos >= me.o.len && |se.stream| < LONG
    requires me.o.offset + k <= |se.stream| && (last ==> me.o.offset + k == |se.stream|)
    requires k <= |me'.cache| && me'.o.len == k && me'.o.pos == 0 && me'.o.mode == me.o.mode
    requires me'.o.offset == Advance(me.o.offset, k) && me'.o.eof == (if last then 1 else 0)
    requires me'.cache[..k] == se.stream[me.o.offset..me.o.offset + k]
    ensures ReaderInv(me', se, h)
  {
    assert me'.o.offset == me.o.offset + k;
    assert me'.cache[0..k] == me'.cache[..k];
  }

  /** A believed READ reply refills the cache with the next stretch of stream. */
  lemma Refilled(me: Half, other: Half, s: Service, hist: map<nat, Hist>,
                 req: seq<byte>, reply: seq<byte>, s': Service, me': Half)
    requires Coupled(me, other, Idle, s, hist) && Active(me) && Reader(me.o)
    requires me.o.pos >= me.o.len
    requires Parse(req).Read? && Parse(req).handle == me.o.handle && Parse(req).offset == me.o.offset
    requires Effect(s, req, reply, s') && GrantsData(reply, me.o.handle)
    requires me'.sid == me.sid && |me'.cache| == 128
    requires me'.o == me.o.(offset := Advance(me.o.offset, Count(reply)), len := Count(reply), pos := 0,
                            eof := if Last(reply) then 1 else 0)
    requires me'.cache[..me'.o.len] == Data(reply)
    ensures Coupled(me', other, Idle, s', hist)
  {
    hide Advance;
    ReadServes(s, me.o.handle, me.o.offset, reply, s');
    RefilledReader(me, s.log[me.sid], HistOf(hist, me.sid), Count(reply), Last(reply), me');
  }

  /** The reply of `Server.UnflaggedEnd`, which an honest service may send before
      the end of the stream, makes GET answer end of file too early. */
  lemma EndsEarly(me: Half, other: Half, s: Service, hist: map<nat, Hist>, req: seq<byte>)
    requires Coupled(me, other, Idle, s, hist) && Active(me) && Reader(me.o) && me.o.pos >= me.o.len
    requires me.o.handle < WORD && me.sid < |s.log| && me.o.offset < |s.log[me.sid].stream|
    requires Parse(req) == Read(me.o.handle, me.o.offset, 128)
    ensures Effect(s, req, EmptyReply(me.o.handle), s) && Believed(req, EmptyReply(me.o.handle))
    ensures var me' := WithOwner(me, me.o.(len := 0, pos := 0, eof := 0));
            Coupled(me', other, Idle, s, hist) && !Exhausted(s, hist, me.sid)
  {
    hide Seal, Framed, Checksum, EmptyReply;
    var reply := EmptyReply(me.o.handle);
    UnflaggedEnd(s, me.o.handle, me.o.offset);
    EmptyReplyIsBelieved(me.o.handle);
    var me' := WithOwner(me, me.o.(len := 0, pos := 0, eof := 0));
    Refilled(me, other, s, hist, req, reply, s, me');
    AllDelivered(me', other, Idle, s, hist);
  }

  /** What an honest READ reply says about the stream. */
  lemma ReadServes(s: Service, h: nat, offset: nat, reply: seq<byte>, s': Service)
    requires ServiceOk(s) && ReadEffect(s, h, offset, reply, s') && h in s.open && GrantsData(reply, h)
    ensures s' == s
    ensures var stream := s.log[s.open[h]].stream;
            && offset + Count(reply) <= |stream|
            && Data(reply) == stream[offset..offset + Count(reply)]
            && (Last(reply) ==> offset + Count(reply) == |stream|)
  {
  }

  /** The reply at hand answers a READ of the owner's at its current offset. */
  ghost predicate AnswersRead(me: Half, other: Half, hist: map<nat, Hist>, reply: seq<byte>, s': Service) {
    exists s, req ::
      && Coupled(me, other, Idle, s, hist)
      && Parse(req) == Read(me.o.handle, me.o.offset, 128)
      && Effect(s, req, reply, s')
  }

  lemma ReadIsAnswered(me: Half, other: Half, s: Service, hist: map<nat, Hist>, req: seq<byte>, reply: seq<byte>,
                       s': Service)
    requires Coupled(me, other, Idle, s, hist)
    requires Parse(req) == Read(me.o.handle, me.o.offset, 128) && Effect(s, req, reply, s')
    ensures AnswersRead(me, other, hist, reply, s')
  {
  }

  lemma RefilledByAnswer(me: Half, other: Half, hist: map<nat, Hist>, reply: seq<byte>, s': Service, me': Half)
    requires Active(me) && Reader(me.o) && me.o.pos >= me.o.len
    requires AnswersRead(me, other, hist, reply, s') && GrantsData(reply, me.o.handle)
    requires me'.sid == me.sid && |me'.cache| == 128
    requires me'.o == me.o.(offset := Advance(me.o.offset, Count(reply)), len := Count(reply), pos := 0,
                            eof := if Last(reply) then 1 else 0)
    requires me'.cache[..me'.o.len] == Data(reply)
    ensures Coupled(me', other, Idle, s', hist)
  {
    hide Advance;
    var s, req :| && Coupled(me, other, Idle, s, hist)
                  && Parse(req) == Read(me.o.handle, me.o.offset, 128)
                  && Effect(s, req, reply, s');
    Refilled(me, other, s, hist, req, reply, s', me');
  }

  /** GET hands out exactly the next byte of the stream. */
  lemma Delivered(me: Half, other: Half, d: Dev, s: Service, hist: map<nat, Hist>, me': Half)
    requires Coupled(me, other, d, s, hist) && Active(me) && Reader(me.o)
    requires me.o.pos < me.o.len
    requires me'.sid == me.sid && me'.cache == me.cache && me'.o == me.o.(pos := me.o.pos + 1)
    ensures me.o.pos < |me.cache| && me.sid < |s.log|
    ensures var h := HistOf(hist, me.sid);
            && |h.delivered| < |s.log[me.sid].stream|
            && me.cache[me.o.pos] == s.log[me.sid].stream[|h.delivered|]
            && Coupled(me', other, d, s, hist[me.sid := h.(delivered := h.delivered + [me.cache[me.o.pos]])])
  {
    var se, h := s.log[me.sid], HistOf(hist, me.sid);
    var b := me.cache[me.o.pos];
    var h' := h.(delivered := h.delivered + [b]);
    assert SessionInv(se, h);
    assert b == me.cache[me.o.pos..me.o.len][0] == se.stream[|h.delivered|..me.o.offset][0];
    assert h'.delivered <= se.stream;
    assert me.cache[me'.o.pos..me'.o.len] == me.cache[me.o.pos..me.o.len][1..];
    SessionsAfter(s, hist, me.sid, h');
    OtherAfter(me, other, d, s, hist, h');
    HistAfter(hist, me.sid, h', me.sid);
  }

  // ------------------------------------------------------------ opening, closing

  /** The service has just opened a session for a free slot, and the handle in
      its reply is that session's. */
  ghost predicate SessionOpened(me: Half, other: Half, hist: map<nat, Hist>, r: Request, handle: (byte, byte),
                                s': Service) {
    exists s, req, reply ::
      && Coupled(me, other, Idle, s, hist)
      && Parse(req) == r && r.Open?
      && Effect(s, req, reply, s')
      && GrantsOpen(reply) && OpenHandle(reply) == handle
  }

  lemma GrantedIsOpened(me: Half, other: Half, s: Service, hist: map<nat, Hist>, req: seq<byte>, reply: seq<byte>,
                        s': Service)
    requires Coupled(me, other, Idle, s, hist) && Parse(req).Open?
    requires Effect(s, req, reply, s') && GrantsOpen(reply)
    ensures SessionOpened(me, other, hist, Parse(req), OpenHandle(reply), s')
  {
  }

  lemma OpenedIsLogged(me: Half, other: Half, hist: map<nat, Hist>, r: Request, handle: (byte, byte), s': Service)
    requires SessionOpened(me, other, hist, r, handle, s')
    ensures |s'.log| > 0
  {
  }

  /** An OPEN whose reply is believed gives the slot a session of its own. */
  lemma Opened(me: Half, other: Half, hist: map<nat, Hist>, r: Request, handle: (byte, byte), s': Service, me': Half)
    requires SessionOpened(me, other, hist, r, handle, s') && !Active(me)
    requires |s'.log| > 0 && me'.sid == |s'.log| - 1 && |me'.cache| == 128
    requires me'.o.own <= 0x70 && (Active(other) ==> other.o.own != me'.o.own)
    requires me'.o.mode == INPUT || me'.o.mode == OUTPUT || me'.o.mode == UPDATE
    requires me'.o == Owner(me'.o.own, me'.o.mode, U16(handle.0, handle.1), 0, 0, 0, 0, 0, 0, 0)
    ensures Coupled(me', other, Idle, s', hist)
    ensures HistOf(hist, me'.sid) == NO_HIST
    ensures var n := s'.log[me'.sid];
            n.method_ == r.method_ && n.flags == r.flags && n.uri == r.uri && n.taken == [] && n.commits == 0
  {
    var s, req, reply :| && Coupled(me, other, Idle, s, hist)
                         && Parse(req) == r && r.Open?
                         && Effect(s, req, reply, s')
                         && GrantsOpen(reply) && OpenHandle(reply) == handle;
    EvolvingOpen(me, other, s, hist, req, reply, s');
    OpenedSession(me, other, s, hist, req, reply, s', me');
  }

  lemma OpenedSession(me: Half, other: Half, s: Service, hist: map<nat, Hist>,
                      req: seq<byte>, reply: seq<byte>, s': Service, me': Half)
    requires Coupled(me, other, Idle, s, hist) && !Active(me)
    requires Coupled(me, other, Idle, s', hist)
    requires Parse(req).Open? && Effect(s, req, reply, s') && GrantsOpen(reply)
    requires |s'.log| > 0 && me'.sid == |s'.log| - 1 && |me'.cache| == 128
    requires me'.o.own <= 0x70 && (Active(other) ==> other.o.own != me'.o.own)
    requires me'.o.mode == INPUT || me'.o.mode == OUTPUT || me'.o.mode == UPDATE
    requires me'.o == Owner(me'.o.own, me'.o.mode, U16(OpenHandle(reply).0, OpenHandle(reply).1), 0, 0, 0, 0, 0, 0, 0)
    ensures Coupled(me', other, Idle, s', hist) && me'.sid !in hist
    ensures var n := s'.log[me'.sid];
            n.method_ == Parse(req).method_ && n.flags == Parse(req).flags && n.uri == Parse(req).uri
            && n.taken == [] && n.commits == 0
  {
  }

  lemma EvolvingOpen(me: Half, other: Half, s: Service, hist: map<nat, Hist>,
                     req: seq<byte>, reply: seq<byte>, s': Service)
    requires Coupled(me, other, Idle, s, hist)
    requires Parse(req).Open? && Effect(s, req, reply, s')
    ensures Coupled(me, other, Idle, s', hist)
  {
    LaunchKeepsCoupled(me, other, Idle, s, hist, 0, req);
    assert Evolves(Busy(0, req), s, Idle, s');
    EvolvingKeepsCoupled(me, other, Busy(0, req), s, Idle, s', hist);
  }

  /** Local ownership can be dropped at any time. */
  lemma Released(me: Half, other: Half, d: Dev, s: Service, hist: map<nat, Hist>, me': Half)
    requires Coupled(me, other, d, s, hist) && !Active(me')
    ensures Coupled(me', other, d, s, hist)
  {
  }

  lemma CoupledBothWays(me: Half, other: Half, d: Dev, s: Service, hist: map<nat, Hist>)
    ensures Coupled(me, other, d, s, hist) <==> Coupled(other, me, d, s, hist)
  {
  }

  /** Before the first OPEN there is nothing to account for. */
  lemma NothingOpen(me: Half, other: Half, d: Dev)
    requires !Active(me) && !Active(other) && d.Idle?
    ensures Coupled(me, other, d, Service([], map[]), map[])
  {
  }

  // ----------------------------------------------------------------- histories

  /** The histories, and what the wire has been through. */
  datatype Account = Account(hist: map<nat, Hist>, meter: Meter)

  /** WRITEs of a session as they look on the wire. */
  function OnWire(handle: nat, ws: seq<Chunk>): seq<Request> {
    seq(|ws|, i requires 0 <= i < |ws| => Write(handle, ws[i].start % LONG, ws[i].data))
  }

  lemma OnWireJoins(handle: nat, w0: seq<Chunk>, w1: seq<Chunk>, w2: seq<Chunk>)
    requires w0 <= w1 <= w2
    ensures OnWire(handle, w2[|w0|..]) == OnWire(handle, w1[|w0|..]) + OnWire(handle, w2[|w1|..])
  {
  }

  /** The WRITEs put on the wire are the new ones in the session's history. */
  ghost predicate Accounted(a: Account, a': Account, sid: nat, handle: nat) {
    var ws, ws' := HistOf(a.hist, sid).writes, HistOf(a'.hist, sid).writes;
    && Later(a.meter, a'.meter)
    && ws <= ws'
    && a'.meter.writes == a.meter.writes + OnWire(handle, ws'[|ws|..])
  }

  lemma AccountedTransitive(a0: Account, a1: Account, a2: Account, sid: nat, handle: nat)
    requires Accounted(a0, a1, sid, handle) && Accounted(a1, a2, sid, handle)
    ensures Accounted(a0, a2, sid, handle)
  {
    hide Later, OnWire;
    LaterTransitive(a0.meter, a1.meter, a2.meter);
    OnWireJoins(handle, HistOf(a0.hist, sid).writes, HistOf(a1.hist, sid).writes, HistOf(a2.hist, sid).writes);
  }

  /** With no WRITE on the wire there is none to account for. */
  lemma QuietIsAccounted(a: Account, a': Account, sid: nat, handle: nat)
    requires Quiet(a.meter, a'.meter) && HistOf(a'.hist, sid).writes == HistOf(a.hist, sid).writes
    ensures Accounted(a, a', sid, handle)
  {
    assert OnWire(handle, HistOf(a.hist, sid).writes[|HistOf(a.hist, sid).writes|..]) == [];
  }

  /** Only the WRITEs of one session may have grown, by what went on the wire. */
  ghost predicate OnlyWrote(a: Account, a': Account, sid: nat, handle: nat) {
    && (forall i :: i != sid ==> HistOf(a'.hist, i) == HistOf(a.hist, i))
    && HistOf(a'.hist, sid) == HistOf(a.hist, sid).(writes := HistOf(a'.hist, sid).writes)
    && Accounted(a, a', sid, handle)
  }

  lemma OnlyWroteTransitive(a0: Account, a1: Account, a2: Account, sid: nat, handle: nat)
    requires OnlyWrote(a0, a1, sid, handle) && OnlyWrote(a1, a2, sid, handle)
    ensures OnlyWrote(a0, a2, sid, handle)
  {
    hide Accounted;
    AccountedTransitive(a0, a1, a2, sid, handle);
  }

  lemma QuietOnlyWrote(hist: map<nat, Hist>, m: Meter, m': Meter, sid: nat, handle: nat)
    requires Quiet(m, m')
    ensures OnlyWrote(Account(hist, m), Account(hist, m'), sid, handle)
  {
    QuietIsAccounted(Account(hist, m), Account(hist, m'), sid, handle);
  }

  lemma QuietSame(m: Meter)
    ensures Quiet(m, m)
  {
  }

  lemma OnlyWroteLater(a: Account, a': Account, sid: nat, handle: nat)
    requires OnlyWrote(a, a', sid, handle)
    ensures Later(a.meter, a'.meter)
  {
  }

  /** A WRITE recorded as it goes on the wire. */
  lemma SentOnlyWrote(hist: map<nat, Hist>, sid: nat, c: Chunk, handle: nat, m: Meter, m': Meter)
    requires Later(m, m') && m'.writes == m.writes + [Write(handle, c.start % LONG, c.data)]
    ensures OnlyWrote(Account(hist, m), Account(Sent(hist, sid, c), m'), sid, handle)
  {
    var ws := HistOf(hist, sid).writes;
    assert (ws + [c])[|ws|..] == [c];
    assert OnWire(handle, [c]) == [Write(handle, c.start % LONG, c.data)];
  }

  /** What a sound writer sends is its next chunk, at the service's position. */
  lemma ChunkOnWire(me: Half, other: Half, d: Dev, s: Service, hist: map<nat, Hist>)
    requires Coupled(me, other, d, s, hist) && Writing(me)
    ensures var c := NextChunk(me, s); me.o.offset == c.start % LONG && c.data == me.cache[..me.o.len]
  {
  }

  /** A WRITE whose exchange failed, wherever the device left it. */
  lemma WriteFailed(me: Half, other: Half, s: Service, hist: map<nat, Hist>, tag: nat, req: seq<byte>, d': Dev,
                    s': Service)
    requires Coupled(me, other, Idle, s, hist) && Writing(me)
    requires Parse(req) == Write(me.o.handle, me.o.offset, me.cache[..me.o.len])
    requires Evolves(Busy(tag, req), s, d', s')
    ensures Coupled(WithOwner(me, me.o.(fault := 1)), other, d', s',
                    Sent(hist, me.sid, NextChunk(me, s)))
  {
    var hist' := Sent(hist, me.sid, NextChunk(me, s));
    WriteLaunched(me, other, s, hist, tag, req);
    EvolvingKeepsCoupled(WithOwner(me, me.o.(fault := 1)), other, Busy(tag, req), s, d', s', hist');
  }

  /** One session's history grew by PUT bytes, GET bytes and WRITEs. */
  ghost predicate Recorded(a: Account, a': Account, sid: nat, handle: nat, puts: seq<byte>, gets: seq<byte>) {
    var h, h' := HistOf(a.hist, sid), HistOf(a'.hist, sid);
    && (forall i :: i != sid ==> HistOf(a'.hist, i) == HistOf(a.hist, i))
    && h'.puts == h.puts + puts
    && h'.delivered == h.delivered + gets
    && Accounted(a, a', sid, handle)
  }

  lemma WroteIsRecorded(a: Account, a': Account, sid: nat, handle: nat)
    requires OnlyWrote(a, a', sid, handle)
    ensures Recorded(a, a', sid, handle, [], [])
  {
    hide Accounted;
  }

  /** PUT first, then whatever `flush` sends. */
  lemma PutIsRecorded(a: Account, sid: nat, handle: nat, b: byte, a': Account)
    requires var h := HistOf(a.hist, sid);
             OnlyWrote(a.(hist := a.hist[sid := h.(puts := h.puts + [b])]), a', sid, handle)
    ensures Recorded(a, a', sid, handle, [b], [])
  {
    var h := HistOf(a.hist, sid);
    forall i | i != sid ensures HistOf(a'.hist, i) == HistOf(a.hist, i) {
      HistAfter(a.hist, sid, h.(puts := h.puts + [b]), i);
    }
    HistAfter(a.hist, sid, h.(puts := h.puts + [b]), sid);
  }

  /** Whatever the commit sent first, then the byte GET hands out. */
  lemma GetIsRecorded(a: Account, mid: Account, sid: nat, handle: nat, b: byte, m': Meter)
    requires OnlyWrote(a, mid, sid, handle) && Quiet(mid.meter, m')
    ensures var h := HistOf(mid.hist, sid);
            Recorded(a, Account(mid.hist[sid := h.(delivered := h.delivered + [b])], m'), sid, handle, [], [b])
  {
    hide Later;
    var h := HistOf(mid.hist, sid);
    var h' := h.(delivered := h.delivered + [b]);
    forall i | i != sid ensures HistOf(mid.hist[sid := h'], i) == HistOf(a.hist, i) {
      HistAfter(mid.hist, sid, h', i);
    }
    HistAfter(mid.hist, sid, h', sid);
    LaterTransitive(a.meter, mid.meter, m');
  }

  /** CLOSE: the owner is let go before its CLOSE is accounted for. */
  lemma CloseKeepsCoupled(me: Half, other: Half, s: Service, hist: map<nat, Hist>,
                          tag: nat, req: seq<byte>, d': Dev, s': Service)
    requires Coupled(me, other, Idle, s, hist) && Active(me)
    requires Parse(req) == Close(me.o.handle)
    requires Evolves(Busy(tag, req), s, d', s')
    ensures Coupled(WithOwner(me, me.o.(own := 0xff)), other, d', s', hist)
  {
    var gone := WithOwner(me, me.o.(own := 0xff));
    Released(me, other, Idle, s, hist, gone);
    ExchangeKeepsCoupled(gone, other, Idle, s, hist, tag, req, d', s');
  }

  // ---------------------------------------------------------------- durability

  /** All of a session's PUT bytes are with the service, closed by one commit. */
  ghost predicate Durable(s: Service, hist: map<nat, Hist>, sid: nat) {
    sid < |s.log| && s.log[sid].taken == HistOf(hist, sid).puts && s.log[sid].commits == 1
  }

  lemma CommittedIsDurable(me: Half, other: Half, d: Dev, s: Service, hist: map<nat, Hist>)
    requires Coupled(me, other, d, s, hist) && Active(me)
    requires me.o.mode != INPUT && me.o.committed == 1
    ensures Durable(s, hist, me.sid)
  {
    var h := HistOf(hist, me.sid);
    assert h.puts == s.log[me.sid].taken + me.cache[..0] || Reader(me.o);
  }

  lemma DurableStays(me: Half, other: Half, d: Dev, s: Service, hist: map<nat, Hist>, s': Service, sid: nat)
    requires Durable(s, hist, sid) && Grows(s, s')
    requires Coupled(me, other, d, s', hist)
    ensures Durable(s', hist, sid)
  {
    assert SessionInv(s'.log[sid], HistOf(hist, sid));
  }
}
