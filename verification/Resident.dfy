/** The resident N: handler: two CIO owners over one packet and one wire. */
module Resident {
  import opened Bytes
  import opened Wire
  import opened Server
  import opened Adapter
  import opened Coupling

  const SUCCESS: byte := 1
  const ALREADY_OPEN: byte := 0x81
  const NOT_OPEN: byte := 0x85
  const BAD_IOCB: byte := 0x86
  const END_OF_FILE: byte := 0x88
  const IO_ERROR: byte := 0x90
  const UNSUPPORTED: byte := 0x92
  const NO_OWNER: byte := 0xa1
  const BAD_NAME: byte := 0xa5

  // CIO operations, in the order of the handler table.
  const OPEN: byte := 0
  const CLOSE: byte := 1
  const GET: byte := 2
  const PUT: byte := 3
  const STATUS: byte := 4

  const POLLS: byte := 60

  const URI_MAX := 128

  /** The caller's IOCB fields OPEN reads; `name` is memory from the buffer on. */
  datatype Iocb = Iocb(aux1: byte, buffer: (byte, byte), name: nat -> byte)

  predicate EndsName(c: byte) {
    c == 0 || c == 0x9b
  }

  /** The URI behind "N1:" is exactly uri: 1 to 128 bytes up to NUL or EOL. */
  predicate NamesUri(name: nat -> byte, uri: seq<byte>) {
    && name(0) == 0x4e && name(1) == 0x31 && name(2) == 0x3a
    && 1 <= |uri| <= 128 && (name(3 + |uri|) == 0 || name(3 + |uri|) == 0x9b)
    && forall i :: 0 <= i < |uri| ==> uri[i] == name(3 + i) && uri[i] != 0 && uri[i] != 0x9b
  }

  /** Where the copy loop stops without a name there is none. */
  lemma NoUri(name: nat -> byte, x: nat)
    requires (x == 0 && EndsName(name(3))) || (x == URI_MAX && !EndsName(name(3 + x)))
    requires forall i :: 3 <= i < 3 + x ==> !EndsName(name(i))
    ensures forall u :: !NamesUri(name, u)
  {
    forall u ensures !NamesUri(name, u) {
      if |u| > 0 && u[0] == name(3 + 0) && x != 0 && |u| < x {
        assert !EndsName(name(3 + |u|));
      }
    }
  }

  /** What goes into the OPEN packet for the three CIO modes. */
  function MethodOf(mode: byte): byte {
    if mode == INPUT then 1 else if mode == OUTPUT then 3 else 2
  }

  function FlagsOf(mode: byte): byte {
    if mode == INPUT then 0 else 4
  }

  /** The reply just collected belongs to the request that was in flight. */
  ghost predicate Collected(d: Dev, s: Service, reply: seq<byte>, s': Service)
    requires ServiceOk(s)
  {
    || (d.Ready? && reply == d.reply && s' == s)
    || (d.Busy? && Effect(s, d.req, reply, s'))
  }

  /** A 16-byte owner record as it is stored. */
  datatype Record = Record(own: byte, mode: byte, handle: (byte, byte), offset: (byte, byte, byte, byte),
                           len: byte, pos: byte, eof: byte, fault: byte, committed: byte, reading: byte) {
    function View(): Owner {
      Owner(own, mode, U16(handle.0, handle.1), U32(offset.0, offset.1, offset.2, offset.3),
            len, pos, eof, fault, committed, reading)
    }
  }

  const CLEARED := Record(0, 0, (0, 0), (0, 0, 0, 0), 0, 0, 0, 0, 0, 0)

  /** Bytes a PUT adds to the session's account: none when refused outright. */
  function PutBytes(op: byte, h: Half, data: byte): seq<byte> {
    if op == PUT && Writing(h) then [data] else []
  }

  /** The last of the requests put on the wire since `trace` is r. */
  predicate Asks(trace: seq<Request>, trace': seq<Request>, r: Request) {
    |trace| < |trace'| && trace'[|trace'| - 1] == r
  }

  /** HTTP-side meaning of the modes: 4 is GET without a body, 8 PUT and 12 POST
      with a body of unknown length. */
  predicate Requests(aux1: byte, m: byte, flags: byte) {
    (aux1 == 4 && m == 1 && flags == 0) || (aux1 == 8 && m == 3 && flags == 4) || (aux1 == 12 && m == 2 && flags == 4)
  }

  /** What OPEN does to the slot it may take. It fails on the wire only when the
      wire gave cause. */
  ghost predicate Opens(iocb: Iocb, y: byte, h: Half, h': Half, other: Half, a: Account, a': Account) {
    && (y == UNSUPPORTED || y == NO_OWNER || y == BAD_NAME || y == IO_ERROR || y == SUCCESS)
    && (y == UNSUPPORTED <==> iocb.aux1 != INPUT && iocb.aux1 != OUTPUT && iocb.aux1 != UPDATE)
    && (y == NO_OWNER <==> y != UNSUPPORTED && Active(h) && Active(other))
    && (y == BAD_NAME ==> iocb.buffer == (0, 0) || forall u :: !NamesUri(iocb.name, u))
    && (y == IO_ERROR ==> Impeded(a.meter, a'.meter))
    && (y != SUCCESS ==> h' == h)
    && a'.hist == a.hist && Quiet(a.meter, a'.meter)
    && (y == SUCCESS ==>
          && !Active(h) && Active(h') && h'.o.mode == iocb.aux1
          && h'.sid < |a'.meter.service.log| && HistOf(a'.hist, h'.sid) == NO_HIST
          && var n := a'.meter.service.log[h'.sid];
             && iocb.buffer != (0, 0) && NamesUri(iocb.name, n.uri) && Requests(iocb.aux1, n.method_, n.flags)
             && n.taken == [] && n.commits == 0)
  }

  /** What CLOSE, GET, PUT and STATUS do to the owner they find. The history
      grows by the byte PUT or GET and by the WRITEs put on the wire; a faulted or
      committed owner sends none. A CLOSE that succeeds leaves output durable. An
      I/O error has its cause on the wire or in an earlier one. */
  ghost predicate Serves(op: byte, data: byte, y: byte, data': byte, h: Half, h': Half,
                         a: Account, a': Account, trace: seq<Request>, trace': seq<Request>) {
    && (y == SUCCESS || y == END_OF_FILE || y == IO_ERROR || y == UNSUPPORTED)
    && (y == END_OF_FILE ==> op != PUT && op != CLOSE)
    && (y == UNSUPPORTED <==> (op == GET && h.o.mode == OUTPUT) || (op == PUT && h.o.mode == INPUT))
    && (y == IO_ERROR ==> Impeded(a.meter, a'.meter) || h.o.fault != 0 || (op == PUT && h.o.committed != 0))
    && (Active(h') <==> op != CLOSE) && h'.sid == h.sid
    && (op != CLOSE ==> h'.o.own == h.o.own)
    && Recorded(a, a', h.sid, h.o.handle, PutBytes(op, h, data), if op == GET && y == SUCCESS then [data'] else [])
    && ((op == GET && y == SUCCESS) || data' == data)
    && (h.o.fault != 0 || h.o.committed != 0 ==>
          && HistOf(a'.hist, h.sid).writes == HistOf(a.hist, h.sid).writes
          && (op != CLOSE ==> h'.o.fault == h.o.fault && h'.o.committed == h.o.committed))
    && (op == CLOSE ==> Asks(trace, trace', Close(h.o.handle)) || Impeded(a.meter, a'.meter))
    && (op == CLOSE && y == SUCCESS ==>
          && Asks(trace, trace', Close(h.o.handle)) && Fulfilled(a'.meter)
          && (h.o.mode != INPUT ==> Durable(a'.meter.service, a'.hist, h.sid)))
    && (op == STATUS && y != IO_ERROR ==>
          && Asks(trace, trace', Info(h.o.handle)) && Fulfilled(a'.meter)
          && (h.o.mode != INPUT ==> h'.o.committed == 1)
          && (y == END_OF_FILE <==> h'.o.mode != OUTPUT && h'.o.eof != 0 && h'.o.pos >= h'.o.len))
    && (op == STATUS && y == END_OF_FILE ==> Exhausted(a'.meter.service, a'.hist, h.sid))
    && (op == PUT && y == SUCCESS ==> Writing(h) && h'.o.fault == 0)
    && (op == PUT && Writing(h) && h.o.len < 127 ==>
          y == SUCCESS && a'.meter == a.meter && h'.o.len == h.o.len + 1 && h'.o.offset == h.o.offset)
    && (op == PUT && y == SUCCESS && h.o.len >= 127 ==> h'.o.len == 0)
    && (op == PUT && y == IO_ERROR ==> h'.o.fault != 0 || h'.o.committed != 0)
    && (op == GET && (y == SUCCESS || y == END_OF_FILE) ==> Reader(h'.o))
    && (op == GET && Reader(h.o) && h.o.pos < h.o.len ==> y == SUCCESS)
    && (op == GET && y == END_OF_FILE ==>
          && h'.o.pos >= h'.o.len && (h'.o.eof == 1 || h'.o.len == 0)
          && EndsExactly(h'.o, a'.meter.service, a'.hist, h.sid)
          && (h.o.eof == 0 ==>
                && Asks(trace, trace', Read(h.o.handle, if Reader(h.o) then h.o.offset else 0, 128))
                && Fulfilled(a'.meter)))
  }

  /** Both owners, the account of histories and wire, and what was asked. */
  datatype State = State(h0: Half, h1: Half, account: Account, trace: seq<Request>) {
    function At(x: nat): Half {
      if x == 0 then h0 else h1
    }

    /** The slot an IOCB owns, 2 when it owns none. */
    function Found(x: byte): (f: nat)
      ensures f <= 2 && (f < 2 ==> At(f).o.own == x)
    {
      if h1.o.own == x then 1 else if h0.o.own == x then 0 else 2
    }

    /** The slot OPEN takes, if it is free. */
    function Free(): nat {
      if h1.o.own >= 0x80 then 1 else 0
    }
  }

  /** The whole answer to one call, on an IOCB x: result y, accumulator data'. */
  ghost predicate Answered(op: byte, data: byte, x: byte, iocb: Iocb, y: byte, data': byte, st: State, st': State) {
    var f, t := st.Found(x), st.Free();
    && (x % 16 != 0 || x >= 0x80 <==> y == BAD_IOCB)
    && (y != BAD_IOCB ==> (f == 2 && op != OPEN <==> y == NOT_OPEN) && (f != 2 && op == OPEN <==> y == ALREADY_OPEN))
    && (y == BAD_IOCB || y == NOT_OPEN || y == ALREADY_OPEN ==> st' == st && data' == data)
    && (y != BAD_IOCB && f == 2 && op == OPEN ==>
          && data' == data && st'.At(1 - t) == st.At(1 - t)
          && Opens(iocb, y, st.At(t), st'.At(t), st.At(1 - t), st.account, st'.account))
    && (y != BAD_IOCB && f < 2 && op != OPEN ==>
          && st'.At(1 - f) == st.At(1 - f)
          && Serves(op, data, y, data', st.At(f), st'.At(f), st.account, st'.account, st.trace, st'.trace))
  }

  lemma AnsweredRefusal(op: byte, data: byte, x: byte, iocb: Iocb, y: byte, st: State)
    requires y == (if x % 16 != 0 || x >= 0x80 then BAD_IOCB else if op == OPEN then ALREADY_OPEN else NOT_OPEN)
    requires y != BAD_IOCB ==> (st.Found(x) == 2 <==> op != OPEN)
    ensures Answered(op, data, x, iocb, y, data, st, st)
  {
    hide Serves, Opens;
  }

  lemma AnsweredOpen(data: byte, x: byte, iocb: Iocb, y: byte, st: State, st': State)
    requires x % 16 == 0 && x < 0x80 && st.Found(x) == 2
    requires y != BAD_IOCB && y != NOT_OPEN && y != ALREADY_OPEN
    requires var t := st.Free();
             && st'.At(1 - t) == st.At(1 - t)
             && Opens(iocb, y, st.At(t), st'.At(t), st.At(1 - t), st.account, st'.account)
    ensures Answered(OPEN, data, x, iocb, y, data, st, st')
  {
    hide Serves, Opens;
  }

  lemma AnsweredService(op: byte, data: byte, x: byte, iocb: Iocb, y: byte, data': byte, st: State, st': State)
    requires x % 16 == 0 && x < 0x80 && st.Found(x) < 2 && op != OPEN
    requires y != BAD_IOCB && y != NOT_OPEN && y != ALREADY_OPEN
    requires var f := st.Found(x);
             && st'.At(1 - f) == st.At(1 - f)
             && Serves(op, data, y, data', st.At(f), st'.At(f), st.account, st'.account, st.trace, st'.trace)
    ensures Answered(op, data, x, iocb, y, data', st, st')
  {
    hide Serves, Opens;
  }

  /** The answer in the numbers a CIO caller sees: operations 0 to 4, modes 4, 8
      and 12, and the results of each. */
  lemma AnswersInNumbers(op: byte, data: byte, x: byte, iocb: Iocb, y: byte, data': byte, st: State, st': State)
    requires Answered(op, data, x, iocb, y, data', st, st') && op <= 4
    ensures var o0, o1 := st.h0.o, st.h1.o;
            var known := o0.own == x || o1.own == x;
            if x % 16 != 0 || x >= 0x80 then y == 0x86
            else if known && op == 0 then y == 0x81
            else if !known && op != 0 then y == 0x85
            else if op == 0 then
              if iocb.aux1 != 4 && iocb.aux1 != 8 && iocb.aux1 != 12 then y == 0x92
              else if o0.own < 0x80 && o1.own < 0x80 then y == 0xa1
              else
                && (y == 1 || y == 0x90 || y == 0xa5)
                && (y == 1 && o1.own >= 0x80 ==> st'.h0 == st.h0 && st'.h1.o.own < 0x80 && st'.h1.o.mode == iocb.aux1)
                && (y == 1 && o1.own < 0x80 ==> st'.h1 == st.h1 && st'.h0.o.own < 0x80 && st'.h0.o.mode == iocb.aux1)
            else
              var o := if o1.own == x then o1 else o0;
              && (op == 1 || op == 4 ==> y == 1 || y == 0x90 || (op == 4 && y == 0x88))
              && (op == 2 ==> (y == 0x92 <==> o.mode == 8) && (y == 0x92 || y == 1 || y == 0x88 || y == 0x90))
              && (op == 3 ==> (y == 0x92 <==> o.mode == 4) && (y == 0x92 || y == 1 || y == 0x90))
  {
    hide Impeded, Quiet, NamesUri, Recorded, Durable, Exhausted, EndsExactly, Asks, HistOf;
  }

  class Resident {
    const owners: array<Record>
    const caches: array<byte>
    const packet: array<byte>
    const device: SioAdapter

    var busy: byte
    var caller_a: byte
    var caller_x: byte
    var operation: byte
    var ptr: (byte, byte)          // the two borrowed zero-page bytes
    var slot: nat
    var command: byte
    var request_len: byte
    var wire_len: byte
    var wire_hi: byte
    var outstanding: byte
    var polls: byte
    var payload: byte
    var payload_len: byte
    var count: byte

    ghost var sid0: nat            // sessions the two owners opened
    ghost var sid1: nat
    ghost var hist: map<nat, Hist>

    predicate Shape() {
      && owners.Length == 2 && caches.Length == 256 && packet.Length == 512 && caches != packet
    }

    function OwnerAt(x: nat): Owner
      requires Shape() && x < 2
      reads owners
    {
      owners[x].View()
    }

    ghost function CacheAt(x: nat): (c: seq<byte>)
      requires Shape() && x < 2
      reads caches
      ensures |c| == 128
    {
      caches[128 * x..128 * x + 128]
    }

    ghost function HalfAt(x: nat): Half
      requires Shape() && x < 2
      reads owners, caches, this`sid0, this`sid1
    {
      Half(OwnerAt(x), CacheAt(x), if x == 0 then sid0 else sid1)
    }

    ghost function Acc(): Account
      reads `hist, device
    {
      Account(hist, device.Gauge())
    }

    ghost function Snap(): State
      requires Shape()
      reads owners, caches, this`sid0, this`sid1, `hist, device
    {
      State(HalfAt(0), HalfAt(1), Acc(), device.trace)
    }

    /** Nothing outstanding means the device is free for the next W. */
    ghost predicate Wired()
      reads this`outstanding, device
    {
      Shape() && device.Ok() && outstanding <= 1 && (outstanding == 0 ==> device.dev.Idle?)
    }

    ghost predicate Linked(x: nat)
      requires Shape() && x < 2
      reads owners, caches, this`sid0, this`sid1, this`hist, device
    {
      Coupled(HalfAt(x), HalfAt(1 - x), device.dev, device.service, hist)
    }

    /** At rest a sound writer has room for the next byte. */
    ghost predicate Rested(x: nat)
      requires Shape() && x < 2
      reads owners
    {
      var o := OwnerAt(x);
      o.own < FREE && !Reader(o) && o.fault == 0 ==> o.len < 128
    }

    ghost predicate Valid()
      reads `outstanding, `sid0, `sid1, `hist, owners, caches, device
    {
      Wired() && Linked(0) && Rested(0) && Rested(1)
    }

    /** BSS as the loader leaves it, then `_fnresident_module_entry`. */
    constructor (device: SioAdapter)
      requires device.Ok() && device.dev.Idle? && device.service == Service([], map[])
      ensures Valid() && this.device == device && busy == 0
      ensures fresh(owners) && fresh(caches) && fresh(packet)
      ensures hist == map[] && !Active(HalfAt(0)) && !Active(HalfAt(1))
    {
      this.device := device;
      owners := new Record[2](i => CLEARED);
      caches := new byte[256](i => 0);
      packet := new byte[512](i => 0);
      busy, caller_a, caller_x, operation, ptr := 0, 0, 0, 0, (0, 0);
      slot, command, request_len, wire_len, wire_hi := 0, 0, 0, 0, 0;
      outstanding, polls, payload, payload_len, count := 0, 0, 0, 0, 0;
      sid0, sid1, hist := 0, 0, map[];
      new;
      owners[0] := owners[0].(own := 0xff);
      owners[1] := owners[1].(own := 0xff);
      NothingOpen(HalfAt(0), HalfAt(1), device.dev);
    }

    /** `add_offset`: carry the acknowledged count through all four bytes. */
    method AddOffset(a: byte)
      requires Shape() && slot < 2
      modifies owners
      ensures owners[1 - slot] == old(owners[1 - slot])
      ensures OwnerAt(slot) == old(OwnerAt(slot)).(offset := Advance(old(OwnerAt(slot).offset), a))
    {
      hide Advance, U32, U16;
      ghost var was := owners[slot].offset;
      Add32IsAddition(was, a);
      var (b0, b1, b2, b3) := owners[slot].offset;
      var sum := a + b0;
      b0 := sum % 256;
      if sum >= 256 {
        b1 := Inc(b1);
        if b1 == 0 {
          b2 := Inc(b2);
          if b2 == 0 {
            b3 := Inc(b3);
          }
        }
      }
      assert (b0, b1, b2, b3) == Add32(was, a);
      owners[slot] := owners[slot].(offset := (b0, b1, b2, b3));
    }

    /** `checksum` over packet[0..wire_len): the sum of the other bytes modulo
        255, in the form that is 0 only where all of them are. */
    method SumPacket() returns (a: byte)
      requires Shape() && wire_len >= 6
      ensures a == Checksum(packet[..], wire_len)
      ensures a as int % 255 == ByteSum(packet[..], wire_len) % 255
      ensures a == 0 <==> forall i :: 0 <= i < wire_len && i != 4 ==> packet[i] == 0
    {
      ChecksumIsSum(packet[..], wire_len);
      a := 0;
      var x: nat := 0;
      while x != wire_len
        invariant x <= wire_len
        invariant a == Checksum(packet[..], x)
        decreases wire_len - x
      {
        if x != 4 {
          a := if a + packet[x] < 256 then a + packet[x] else a + packet[x] - 255;
        }
        x := x + 1;
      }
    }

    /** The poll loop of `receive`: at most 60 polls for a reply that is ready. */
    method Await() returns (ready: bool)
      requires Shape() && device.Ok()
      modifies `polls, `wire_len, `wire_hi, `outstanding, packet, device
      ensures device.Ok() && device.sent == old(device.sent) && device.trace == old(device.trace)
      ensures Evolves(old(device.dev), old(device.service), device.dev, device.service)
      ensures ExecutedOnce(old(device.dev), old(device.executed), device.dev, device.executed)
      ensures Quiet(old(device.Gauge()), device.Gauge())
      ensures ready ==> device.dev.Ready? && U16(packet[1], packet[2]) == |device.dev.reply|
                        && outstanding == old(outstanding)
                        && (Collectable(|device.dev.reply|) || device.stuck > old(device.stuck))
                        && device.unanswered == old(device.unanswered)
      ensures !ready ==> || (outstanding == old(outstanding) && device.timeouts > old(device.timeouts))
                         || (outstanding == 0 && device.dev.Idle?
                             && (old(device.dev).Idle? || device.unanswered == device.sent))
      ensures device.transactions <= old(device.transactions) + POLLS
    {
      hide Effect, Later, SioAdapter.Ok, U16, Evolves, Collectable;
      ghost var m, d, s, e := device.Gauge(), device.dev, device.service, device.executed;
      QuietSame(m);
      DeviceIsOk();
      polls := POLLS;
      while true
        invariant 1 <= polls <= POLLS && outstanding == old(outstanding)
        invariant device.Ok() && device.sent == old(device.sent) && device.trace == old(device.trace)
        invariant Evolves(d, s, device.dev, device.service)
        invariant ExecutedOnce(d, e, device.dev, device.executed) && device.stuck >= m.stuck
        invariant device.dev.Idle? ==> d.Idle? || device.unanswered == device.sent
        invariant !device.dev.Idle? ==> device.unanswered == m.unanswered
        invariant device.transactions == old(device.transactions) + (POLLS - polls)
        invariant Quiet(m, device.Gauge())
        invariant 60 * device.timeouts + device.waiting == 60 * m.timeouts + old(device.waiting) + (POLLS - polls)
        decreases polls
      {
        ghost var m1, d1, s1, e1 := device.Gauge(), device.dev, device.service, device.executed;
        wire_len, wire_hi := 3, 0;
        var ok := device.Poll(packet);
        LaterTransitive(m, m1, device.Gauge());
        EvolvesKeepsService(d, s, d1, s1);
        ExecutedTransitive(d, s, e, d1, s1, e1, device.dev, device.service, device.executed);
        EvolvesTransitive(d, s, d1, s1, device.dev, device.service);
        if ok && packet[0] == 0 {
          outstanding := 0;
          return false;
        }
        if ok && packet[0] == 2 {
          return true;
        }
        polls := polls - 1;
        if polls == 0 {
          DeviceIsOk();
          SixtyPolls(m.timeouts, old(device.waiting), device.timeouts, device.waiting);
          return false;
        }
      }
    }

    /** The byte tests on the length of a reply. */
    lemma LengthBytes(lo: byte, hi: byte)
      ensures hi > 2 || (hi == 2 && lo != 0) <==> U16(lo, hi) > 512
      ensures hi == 0 && lo == 0 <==> U16(lo, hi) == 0
    {
    }

    /** `@ready`: the reply held is collected, if R can. */
    method Collect() returns (carry: bool)
      requires Shape() && device.Ok() && device.dev.Ready? && U16(packet[1], packet[2]) == |device.dev.reply|
      modifies `wire_len, `wire_hi, `outstanding, packet, device
      ensures device.Ok() && device.sent == old(device.sent) && device.trace == old(device.trace)
      ensures device.service == old(device.service) && device.executed == old(device.executed)
      ensures device.dev == old(device.dev) || device.dev.Idle?
      ensures Quiet(old(device.Gauge()), device.Gauge())
      ensures carry ==> outstanding == old(outstanding)
      ensures carry && Collectable(|old(device.dev).reply|) ==> Impeded(old(device.Gauge()), device.Gauge())
      ensures !carry ==> outstanding == 0 && device.dev.Idle? && 1 <= U16(wire_len, wire_hi) <= 512
                         && packet[..U16(wire_len, wire_hi)] == old(device.dev).reply
                         && device.unanswered == if Believed(old(device.dev).req, old(device.dev).reply)
                                                 then old(device.unanswered) else device.sent
      ensures device.transactions <= old(device.transactions) + 1
    {
      hide Effect, Believed, Later, SioAdapter.Ok, U16;
      QuietSame(device.Gauge());
      LengthBytes(packet[1], packet[2]);
      wire_hi := packet[2];
      if wire_hi > 2 || (wire_hi == 2 && packet[1] != 0) {
        return true;
      }
      if wire_hi == 0 && packet[1] == 0 {
        return true;
      }
      wire_len := packet[1];
      var ok := device.Fetch(packet, U16(wire_len, wire_hi));
      if !ok {
        return true;
      }
      outstanding := 0;
      return false;
    }

    /** `receive`: poll at most 60 times, then collect the reply of whatever is
        in flight. The result is the carry: set on failure, which has its cause
        on the wire unless there was nothing in flight, or no more: the device
        then says that it is idle. */
    method Receive() returns (carry: bool)
      requires Shape() && device.Ok()
      modifies `polls, `wire_len, `wire_hi, `outstanding, packet, device
      ensures device.Ok() && device.sent == old(device.sent) && device.trace == old(device.trace)
      ensures Evolves(old(device.dev), old(device.service), device.dev, device.service)
      ensures !carry ==>
                && outstanding == 0 && device.dev.Idle? && 1 <= U16(wire_len, wire_hi) <= 512
                && Collected(old(device.dev), old(device.service), packet[..U16(wire_len, wire_hi)], device.service)
                && device.executed == old(device.executed)
                                      + if old(device.dev).Busy? then [old(device.dev).tag] else []
      ensures carry ==> outstanding == old(outstanding) || (outstanding == 0 && device.dev.Idle?)
      ensures Quiet(old(device.Gauge()), device.Gauge())
      ensures carry ==>
                || Impeded(old(device.Gauge()), device.Gauge())
                || (outstanding == 0 && (old(device.dev).Idle? || device.unanswered == device.sent))
      ensures !carry ==> !old(device.dev).Idle?
                         && device.unanswered == if Believed(old(device.dev).req, packet[..U16(wire_len, wire_hi)])
                                                 then old(device.unanswered) else device.sent
      ensures device.transactions <= old(device.transactions) + POLLS + 1
    {
      hide Effect, Believed, Later, SioAdapter.Ok, U16, Collectable;
      ghost var m := device.Gauge();
      DeviceIsOk();
      var ready := Await();
      if !ready {
        return true;
      }
      ghost var m1 := device.Gauge();
      carry := Collect();
      LaterTransitive(m, m1, device.Gauge());
      if carry {
        ImpededWithin(m, m1, device.Gauge());
      }
    }

    lemma DeviceIsOk()
      requires device.Ok()
      ensures ServiceOk(device.service) && Evolves(device.dev, device.service, device.dev, device.service)
      ensures device.waiting < 60 && (!device.dev.Idle? ==> Framed(device.dev.req))
      ensures device.unanswered <= device.sent
    {
    }

    /** One more poll without an end to the wait, sixty in all. */
    lemma SixtyPolls(timeouts: nat, waiting: nat, timeouts': nat, waiting': nat)
      requires waiting < 60 && waiting' < 60 && 60 * timeouts' + waiting' == 60 * timeouts + waiting + 60
      ensures timeouts' == timeouts + 1
    {
    }

    /** The sending half of `exchange`: length, checksum, W. Even a lost
        completion leaves the transaction outstanding. */
    method Send() returns (ok: bool)
      requires Wired() && device.dev.Idle?
      requires 9 <= request_len <= PACKET_MAX
      requires packet[0] == DEVICE && packet[3] == 0
      modifies `wire_hi, `wire_len, `outstanding, packet, device
      ensures Wired() && outstanding == 1 && device.sent == old(device.sent) + 1
      ensures var req := Seal(old(packet[..]), request_len);
              Evolves(Busy(device.sent, req), old(device.service), device.dev, device.service)
      ensures device.trace == old(device.trace) + [Parse(Seal(old(packet[..]), request_len))]
      ensures device.dev.Idle? ==> !ok
      ensures device.executed == old(device.executed) + if device.dev.Ready? then [device.sent] else []
      ensures Later(old(device.Gauge()), device.Gauge()) && device.unanswered == old(device.unanswered)
      ensures var req := Parse(Seal(old(packet[..]), request_len));
              device.writes == old(device.writes) + if req.Write? then [req] else []
      ensures !ok ==> Impeded(old(device.Gauge()), device.Gauge())
      ensures device.transactions == old(device.transactions) + 1
    {
      ghost var req := Seal(packet[..], request_len);
      wire_hi := 0;
      packet[2] := request_len;
      wire_len := request_len;
      ghost var q := packet[..];
      packet[4] := SumPacket();
      SealedIsFramed(old(packet[..]), request_len);
      assert packet[..wire_len] == req;
      outstanding := 1;
      ok := device.Transmit(packet, wire_len);
    }

    /** The receiving half of `exchange`: `receive`, then the checks on the reply. */
    method ReceiveReply() returns (carry: bool)
      requires Wired() && outstanding == 1
      requires !device.dev.Idle? ==> |device.dev.req| > 1 && device.dev.req[1] == command
      modifies `wire_hi, `wire_len, `outstanding, `polls, `payload, `payload_len, packet, device
      ensures Wired() && device.sent == old(device.sent) && device.trace == old(device.trace)
      ensures Evolves(old(device.dev), old(device.service), device.dev, device.service)
      ensures !carry ==>
                && device.dev.Idle? && outstanding == 0 && 6 <= wire_len <= PACKET_MAX
                && Accepted(packet[..wire_len], command)
                && Collected(old(device.dev), old(device.service), packet[..wire_len], device.service)
                && payload == PayloadAt(packet[..wire_len]) && payload_len == wire_len - payload
                && device.executed == old(device.executed)
                                      + if old(device.dev).Busy? then [old(device.dev).tag] else []
      ensures Quiet(old(device.Gauge()), device.Gauge())
      ensures !old(device.dev).Idle? && (carry || !Believed(old(device.dev).req, packet[..wire_len])) ==>
                Impeded(old(device.Gauge()), device.Gauge()) || device.unanswered == device.sent
      ensures !carry && Believed(old(device.dev).req, packet[..wire_len]) ==>
                device.unanswered == old(device.unanswered)
      ensures device.transactions <= old(device.transactions) + POLLS + 1
    {
      hide Effect, Parse, Later, Believed, Accepted, Checksum, Framed, Evolves;
      var failed := Receive();
      if failed {
        return true;
      }
      NotBelieved(old(device.dev).req, packet[..U16(wire_len, wire_hi)]);
      assert wire_hi == 0 ==> U16(wire_len, wire_hi) == wire_len;
      carry := CheckReply();
      if !carry {
        AcceptedSize(packet[..wire_len], command);
      }
    }

    /** `exchange`: one W, then `receive`, then the checks on the reply. A reply
        let through is the answer to the request just sent. */
    method Exchange() returns (carry: bool)
      requires Wired() && device.dev.Idle?
      requires 9 <= request_len <= PACKET_MAX
      requires packet[0] == DEVICE && packet[1] == command && packet[3] == 0
      modifies `wire_hi, `wire_len, `outstanding, `polls, `payload, `payload_len, packet, device
      ensures Wired() && device.sent == old(device.sent) + 1
      ensures var req := Seal(old(packet[..]), request_len);
              Evolves(Busy(device.sent, req), old(device.service), device.dev, device.service)
      ensures !carry ==>
                && device.dev.Idle? && outstanding == 0 && 6 <= wire_len <= PACKET_MAX
                && Accepted(packet[..wire_len], command)
                && Effect(old(device.service), Seal(old(packet[..]), request_len), packet[..wire_len], device.service)
                && payload == PayloadAt(packet[..wire_len]) && payload_len == wire_len - payload
      ensures !carry ==> device.executed == old(device.executed) + [device.sent]
      ensures Later(old(device.Gauge()), device.Gauge())
      ensures var req := Parse(Seal(old(packet[..]), request_len));
              device.writes == old(device.writes) + if req.Write? then [req] else []
      ensures carry || !Believed(Seal(old(packet[..]), request_len), packet[..wire_len]) ==>
                Impeded(old(device.Gauge()), device.Gauge())
      ensures !carry && Believed(Seal(old(packet[..]), request_len), packet[..wire_len]) ==> Fulfilled(device.Gauge())
      ensures device.trace == old(device.trace) + [Parse(Seal(old(packet[..]), request_len))]
      ensures device.transactions <= old(device.transactions) + POLLS + 2
    {
      hide Effect, Parse, Later, Believed, Accepted, Checksum, Framed, Seal;
      ghost var req, m := Seal(packet[..], request_len), device.Gauge();
      var ok := Send();
      if !ok {
        return true;
      }
      ghost var s, d1, s1, m1 := old(device.service), device.dev, device.service, device.Gauge();
      EvolvesKeepsService(Busy(device.sent, req), s, d1, s1);
      assert req[1] == command;
      carry := ReceiveReply();
      EvolvesTransitive(Busy(device.sent, req), s, d1, s1, device.dev, device.service);
      LaterTransitive(m, m1, device.Gauge());
      ImpededWithin(m, m1, device.Gauge());
    }

    /** The reply checks of `exchange`, on the packet just collected. */
    method CheckReply() returns (carry: bool)
      requires Shape()
      modifies `payload, `payload_len
      ensures carry <==> !(wire_hi == 0 && Accepted(packet[..wire_len], command))
      ensures !carry ==> payload == PayloadAt(packet[..wire_len]) && payload_len == wire_len - payload
    {
      if wire_hi != 0 || wire_len < 6 || wire_len >= PACKET_MAX + 1 {
        return true;
      }
      ghost var r := packet[..wire_len];
      if packet[0] != DEVICE || packet[1] != command || packet[2] != wire_len || packet[3] != 0 {
        return true;
      }
      var sum := SumPacket();
      ChecksumIgnoresItself(packet[..], r, wire_len);
      if sum != packet[4] {
        return true;
      }
      var y: byte := 6;
      if packet[5] != 0 {
        if packet[5] != 1 || packet[y] != 0 {
          return true;
        }
        y := y + 1;
      }
      payload := y;
      if wire_len < payload {
        return true;
      }
      payload_len := wire_len - payload;
      if payload_len != 0 {
        if payload_len < 4 || packet[y] != 1 || packet[y + 2] != 0 || packet[y + 3] != 0 {
          return true;
        }
      }
      return false;
    }

    /** Cost of draining what an earlier call left in flight. */
    function Drain(): nat
      reads `outstanding
    {
      if outstanding == 0 then 0 else POLLS as nat + 1
    }

    /** What an earlier call left in flight is drained, or the device is idle. */
    method DrainWire() returns (bad: bool)
      requires Wired()
      modifies `polls, `wire_len, `wire_hi, `outstanding, packet, device
      ensures Wired() && device.sent == old(device.sent) && device.trace == old(device.trace)
      ensures Evolves(old(device.dev), old(device.service), device.dev, device.service)
      ensures bad ==> outstanding == 1 == old(outstanding)
      ensures !bad ==> outstanding == 0
      ensures Quiet(old(device.Gauge()), device.Gauge())
      ensures bad ==> Impeded(old(device.Gauge()), device.Gauge())
      ensures device.transactions <= old(device.transactions) + old(Drain())
    {
      hide Later, Believed, Effect, U16;
      QuietSame(device.Gauge());
      if outstanding != 0 {
        var failed := Receive();
        if failed && outstanding != 0 {
          return true;
        }
      }
      return false;
    }

    /** `begin_packet`: drain the wire, never resending anything, then clear the
        request area and write the header. Draining can fail only with cause. */
    method BeginPacket(cmd: byte) returns (carry: bool)
      requires Wired()
      modifies `command, `polls, `wire_len, `wire_hi, `outstanding, packet, device
      ensures Wired() && command == cmd && device.sent == old(device.sent) && device.trace == old(device.trace)
      ensures Evolves(old(device.dev), old(device.service), device.dev, device.service)
      ensures carry ==> outstanding == 1 == old(outstanding)
      ensures !carry ==> outstanding == 0 && Begun(packet[..], cmd)
                         && forall i :: 2 <= i < PACKET_MAX && i != 6 ==> packet[i] == 0
      ensures Quiet(old(device.Gauge()), device.Gauge())
      ensures carry ==> Impeded(old(device.Gauge()), device.Gauge())
      ensures device.transactions <= old(device.transactions) + old(Drain())
    {
      hide Evolves, Quiet, Impeded, SioAdapter.Ok;
      command := cmd;
      carry := DrainWire();
      if carry {
        return;
      }
      var x := 0;
      while x != PACKET_MAX
        invariant x <= PACKET_MAX
        invariant forall i :: 0 <= i < x ==> packet[i] == 0
        decreases PACKET_MAX - x
        modifies packet
      {
        packet[x] := 0;
        x := x + 1;
      }
      packet[0] := DEVICE;
      packet[1] := command;
      packet[6] := 1;
    }

    /** `session_packet`: the header with the owner's handle and offset. */
    method SessionPacket(cmd: byte) returns (carry: bool)
      requires Wired() && slot < 2
      modifies `command, `polls, `wire_len, `wire_hi, `outstanding, `request_len, packet, device
      ensures Wired() && command == cmd && device.sent == old(device.sent) && device.trace == old(device.trace)
      ensures Evolves(old(device.dev), old(device.service), device.dev, device.service)
      ensures carry ==> outstanding == 1 == old(outstanding)
      ensures !carry ==> outstanding == 0 && Begun(packet[..], cmd) && request_len == 9
                         && U16(packet[7], packet[8]) == OwnerAt(slot).handle
                         && U32(packet[9], packet[10], packet[11], packet[12]) == OwnerAt(slot).offset
                         && forall i :: 13 <= i < PACKET_MAX ==> packet[i] == 0
      ensures Quiet(old(device.Gauge()), device.Gauge())
      ensures carry ==> Impeded(old(device.Gauge()), device.Gauge())
      ensures device.transactions <= old(device.transactions) + old(Drain())
    {
      hide Quiet, Impeded;
      carry := BeginPacket(cmd);
      if carry {
        return;
      }
      packet[7] := owners[slot].handle.0;
      packet[8] := owners[slot].handle.1;
      packet[9] := owners[slot].offset.0;
      packet[10] := owners[slot].offset.1;
      packet[11] := owners[slot].offset.2;
      packet[12] := owners[slot].offset.3;
      request_len := 9;
    }

    /** `check_rw`: version and status were checked; now handle and count. */
    method CheckRw() returns (carry: bool)
      requires Shape() && slot < 2 && wire_len <= PACKET_MAX
      requires Accepted(packet[..wire_len], command)
      requires payload == PayloadAt(packet[..wire_len]) && payload_len == wire_len - payload
      modifies `count
      ensures carry <==> !GrantsCount(packet[..wire_len], command, OwnerAt(slot).handle)
      ensures !carry ==> count == Count(packet[..wire_len])
    {
      var y := payload as int;
      if payload_len < 12 {
        return true;
      }
      if packet[y + 4] != owners[slot].handle.0 || packet[y + 5] != owners[slot].handle.1 {
        return true;
      }
      if packet[y + 11] != 0 || packet[y + 10] >= 129 {
        return true;
      }
      count := packet[y + 10];
      return false;
    }

    /** Three shifts turn the record offset, 0 or 16, into where the owner's half
        starts. */
    method HalfBase() returns (a: byte)
      requires slot < 2
      ensures a == 128 * slot
    {
      a := 16 * slot;
      a := Asl(a);
      a := Asl(a);
      a := Asl(a);
    }

    /** `cache_index`: eight bits wide, yet it stays within the owner's half. */
    method CacheIndex() returns (y: byte)
      requires Shape() && slot < 2 && owners[slot].pos < 128
      ensures 128 * slot <= y < 128 * slot + 128
      ensures y - 128 * slot == owners[slot].pos
    {
      var a := HalfBase();
      y := Wrap(a + owners[slot].pos);
    }

    /** The copy loop of `flush`: the cached bytes behind the request header. */
    method StageCache()
      requires Shape() && slot < 2 && owners[slot].pos == 0 && packet[13] <= 128
      modifies packet
      ensures packet[..15] == old(packet[..15])
      ensures packet[15..15 + packet[13]] == CacheAt(slot)[..packet[13]]
    {
      var y := CacheIndex();
      var x: nat := 0;
      ghost var n := packet[13];
      while x != packet[13]
        invariant x <= n && forall i :: 0 <= i < 15 ==> packet[i] == old(packet[i])
        invariant y == Wrap(128 * slot + x)
        invariant forall i :: 15 <= i < 15 + x ==> packet[i] == caches[128 * slot - 15 + i]
        decreases n - x
      {
        packet[15 + x] := caches[y];
        y := Inc(y);
        x := x + 1;
      }
      assert forall i :: 0 <= i < n ==> CacheAt(slot)[i] == packet[15..15 + n][i];
    }

    /** `flush`, once `session_packet` is through: count, data, length. */
    method FillWrite()
      requires Shape() && slot < 2 && owners[slot].len <= 128
      requires Begun(packet[..], CMD_WRITE) && packet[14] == 0
      requires U16(packet[7], packet[8]) == OwnerAt(slot).handle
      requires U32(packet[9], packet[10], packet[11], packet[12]) == OwnerAt(slot).offset
      modifies `request_len, packet, owners
      ensures owners[1 - slot] == old(owners[1 - slot])
      ensures owners[slot] == old(owners[slot]).(pos := owners[slot].pos)
      ensures owners[slot].pos == 0 && request_len == 15 + owners[slot].len
      ensures Begun(packet[..], CMD_WRITE)
      ensures Parse(Seal(packet[..], request_len))
              == Write(OwnerAt(slot).handle, OwnerAt(slot).offset, CacheAt(slot)[..owners[slot].len])
    {
      packet[13] := owners[slot].len;
      request_len := owners[slot].len + 15;
      owners[slot] := owners[slot].(pos := 0);
      ghost var head := packet[..15];
      StageCache();
      assert forall i :: 0 <= i < 15 ==> packet[i] == head[i];
      SealsWrite(packet[..], packet[13]);
      assert packet[15..15 + packet[13]] == packet[..][15..15 + packet[13]];
    }

    /** The first half of `flush`: a WRITE of the whole cache into the packet. */
    method PrepareWrite() returns (carry: bool)
      requires Wired() && slot < 2 && owners[slot].len <= 128
      modifies `command, `polls, `wire_len, `wire_hi, `outstanding, `request_len, packet, owners, device
      ensures Wired() && device.sent == old(device.sent)
      ensures Evolves(old(device.dev), old(device.service), device.dev, device.service)
      ensures owners[1 - slot] == old(owners[1 - slot])
      ensures owners[slot] == old(owners[slot]).(pos := owners[slot].pos)
      ensures carry ==> outstanding == 1 && owners[slot].pos == old(owners[slot].pos)
      ensures !carry ==>
                && outstanding == 0 && command == CMD_WRITE && Begun(packet[..], CMD_WRITE) && owners[slot].pos == 0
                && request_len == 15 + owners[slot].len
                && Parse(Seal(packet[..], request_len))
                   == Write(OwnerAt(slot).handle, OwnerAt(slot).offset, CacheAt(slot)[..owners[slot].len])
      ensures Quiet(old(device.Gauge()), device.Gauge())
      ensures carry ==> Impeded(old(device.Gauge()), device.Gauge())
      ensures device.transactions <= old(device.transactions) + old(Drain())
    {
      hide Evolves, Parse, Seal, SioAdapter.Ok, U32, U16, Quiet, Impeded;
      carry := SessionPacket(CMD_WRITE);
      if !carry {
        FillWrite();
      }
    }

    /** n bytes from base + k on have moved to base, and no other changed. */
    predicate Moved(was: seq<byte>, now: seq<byte>, base: nat, k: nat, n: nat) {
      && |was| == |now| == 256 && base + k + n <= 256
      && (forall i :: base <= i < base + n ==> now[i] == was[i + k])
      && (forall i :: 0 <= i < 256 && !(base <= i < base + n) ==> now[i] == was[i])
    }

    /** The loop of `@shift`, on one half of the cache. */
    method MoveDown(base: byte, n: byte)
      requires Shape() && base <= 128 && 0 < count && 0 < n && count + n <= 128
      modifies caches
      ensures Moved(old(caches[..]), caches[..], base, count, n)
    {
      var temp := n;
      var y := base;
      var x := base + count;
      while true
        invariant 0 < temp <= n && y + temp == base + n && x == y + count
        invariant forall i :: base <= i < y ==> caches[i] == old(caches[i + count])
        invariant forall i :: 0 <= i < 256 && !(base <= i < y) ==> caches[i] == old(caches[i])
        decreases temp
      {
        caches[y] := caches[x];
        temp := temp - 1;
        if temp == 0 {
          break;
        }
        x, y := Inc(x), Inc(y);
      }
    }

    /** `@shift`: move the unacknowledged bytes to the front of the half. */
    method ShiftCache()
      requires Shape() && slot < 2 && 0 < count && count + owners[slot].len <= 128
      requires owners[slot].len > 0
      modifies caches
      ensures CacheAt(slot)[..owners[slot].len] == old(CacheAt(slot)[count..count + owners[slot].len])
      ensures CacheAt(1 - slot) == old(CacheAt(1 - slot))
    {
      hide Resident.Moved, Asl;
      ghost var was := caches[..];
      HalfOfCaches();
      var base := HalfBase();
      MoveDown(base, owners[slot].len);
      Shifted(was, caches[..], base, 128 - base, count, owners[slot].len);
      HalfOfCaches();
    }

    lemma HalfOfCaches()
      requires Shape()
      ensures caches[..][0..128] == CacheAt(0) && caches[..][128..256] == CacheAt(1)
    {
    }

    lemma Shifted(was: seq<byte>, now: seq<byte>, base: nat, other: nat, k: nat, n: nat)
      requires (base == 0 && other == 128) || (base == 128 && other == 0)
      requires k + n <= 128 && Moved(was, now, base, k, n)
      ensures now[base..base + 128][..n] == was[base..base + 128][k..k + n]
      ensures now[other..other + 128] == was[other..other + 128]
    {
      var front, suffix := now[base..base + 128][..n], was[base..base + 128][k..k + n];
      forall i | 0 <= i < n ensures front[i] == suffix[i] {
        assert now[base + i] == was[base + i + k];
      }
      var theirs, before := now[other..other + 128], was[other..other + 128];
      forall i | 0 <= i < 128 ensures theirs[i] == before[i] {
        assert now[other + i] == was[other + i];
      }
    }

    /** `write_error`: no body byte and no commit is sent for this owner again. */
    method WriteError() returns (a: byte)
      requires Shape() && slot < 2
      modifies owners
      ensures a == IO_ERROR && owners[slot] == old(owners[slot]).(fault := 1)
      ensures owners[1 - slot] == old(owners[1 - slot])
    {
      owners[slot] := owners[slot].(fault := 1);
      return IO_ERROR;
    }

    /** Both acknowledgement branches: the offset grows by what LEN loses. */
    method Retire()
      requires Shape() && slot < 2 && count <= owners[slot].len
      modifies owners
      ensures owners[1 - slot] == old(owners[1 - slot])
      ensures var o := old(OwnerAt(slot));
              OwnerAt(slot) == o.(offset := Advance(o.offset, count), len := o.len - count)
    {
      hide Advance;
      AddOffset(count);
      ghost var o := OwnerAt(slot);
      owners[slot] := owners[slot].(len := owners[slot].len - count);
      assert OwnerAt(slot) == o.(len := o.len - count);
    }

    /** The end of `flush`: believe a count of at most LEN, and more than 0
        unless nothing was sent. */
    method Acknowledge() returns (a: byte, again: bool)
      requires Shape() && slot < 2 && owners[slot].len <= 128
      modifies owners, caches
      ensures owners[1 - slot] == old(owners[1 - slot]) && CacheAt(1 - slot) == old(CacheAt(1 - slot))
      ensures a == SUCCESS || a == IO_ERROR
      ensures a == SUCCESS <==> old(count <= owners[slot].len && (count == 0 ==> owners[slot].len == 0))
      ensures again <==> a == SUCCESS && count < old(owners[slot].len)
      ensures a == IO_ERROR ==> OwnerAt(slot) == old(OwnerAt(slot)).(fault := 1) && CacheAt(slot) == old(CacheAt(slot))
      ensures a == SUCCESS ==>
                var o := old(OwnerAt(slot));
                && OwnerAt(slot) == o.(offset := Advance(o.offset, count), len := o.len - count)
                && CacheAt(slot)[..o.len - count] == old(CacheAt(slot)[count..owners[slot].len])
    {
      hide Advance;
      if count < owners[slot].len {
        if count == 0 {
          a := WriteError();
          return a, false;
        }
        Retire();
        ShiftCache();
        return SUCCESS, true;
      }
      if count != owners[slot].len {
        a := WriteError();
        return a, false;
      }
      Retire();                   // LEN becomes 0
      return SUCCESS, false;
    }

    /** `flush` up to its exchange: the coupling survives the draining. */
    method ReadyWrite() returns (carry: bool)
      requires Wired() && slot < 2 && Linked(slot) && Writing(HalfAt(slot))
      modifies `command, `polls, `wire_len, `wire_hi, `outstanding, `request_len, packet, owners, device
      ensures Wired()
      ensures owners[1 - slot] == old(owners[1 - slot])
      ensures owners[slot] == old(owners[slot]).(pos := owners[slot].pos)
      ensures Linked(slot) && Writing(HalfAt(slot)) && owners[slot].pos <= 128
      ensures !carry ==>
                && outstanding == 0 && command == CMD_WRITE && Begun(packet[..], CMD_WRITE)
                && request_len == 15 + owners[slot].len && owners[slot].len <= 128
                && Parse(Seal(packet[..], request_len))
                   == Write(OwnerAt(slot).handle, OwnerAt(slot).offset, CacheAt(slot)[..owners[slot].len])
      ensures Quiet(old(device.Gauge()), device.Gauge())
      ensures carry ==> Impeded(old(device.Gauge()), device.Gauge())
      ensures device.transactions <= old(device.transactions) + old(Drain())
    {
      hide Coupled, Effect, Evolves, Parse, Seal, SioAdapter.Ok, U32, U16, Quiet, Impeded;
      ghost var me0, other := HalfAt(slot), HalfAt(1 - slot);
      Bounded(me0, other, device.dev, device.service, hist);
      carry := PrepareWrite();
      EvolvingKeepsCoupled(me0, other, old(device.dev), old(device.service), device.dev, device.service, hist);
      WriterMarked(me0, other, device.dev, device.service, hist, HalfAt(slot));
    }

    /** The exchange of a WRITE, its entry in the history, and `check_rw`. On
        failure the coupling already accounts for a faulted owner. */
    method ExchangeWrite() returns (carry: bool)
      requires Wired() && slot < 2 && Linked(slot) && Writing(HalfAt(slot)) && outstanding == 0
      requires command == CMD_WRITE && Begun(packet[..], CMD_WRITE) && 15 <= request_len <= PACKET_MAX
      requires Parse(Seal(packet[..], request_len))
                 == var me := HalfAt(slot); Write(me.o.handle, me.o.offset, me.cache[..me.o.len])
      modifies `wire_len, `wire_hi, `outstanding, `polls, `payload, `payload_len, `count, `hist, packet, device
      ensures Wired()
      ensures OnlyWrote(old(Acc()), Acc(), HalfAt(slot).sid, OwnerAt(slot).handle)
      ensures |HistOf(hist, HalfAt(slot).sid).writes| == |HistOf(old(hist), HalfAt(slot).sid).writes| + 1
      ensures carry || !Believed(Seal(old(packet[..]), request_len), packet[..wire_len]) ==>
                Impeded(old(device.Gauge()), device.Gauge())
      ensures var me := HalfAt(slot);
              && hist == Sent(old(hist), me.sid, NextChunk(me, old(device.service)))
              && Coupled(WithOwner(me, me.o.(fault := 1)), HalfAt(1 - slot), device.dev, device.service, hist)
      ensures !carry ==>
                && outstanding == 0 && wire_len <= PACKET_MAX
                && GrantsCount(packet[..wire_len], CMD_WRITE, OwnerAt(slot).handle)
                && count == Count(packet[..wire_len])
                && Effect(old(device.service), Seal(old(packet[..]), request_len), packet[..wire_len], device.service)
      ensures device.transactions <= old(device.transactions) + POLLS + 2
    {
      hide Coupled, Effect, Evolves, Parse, Accepted, SioAdapter.Ok, U32, U16, Later, Impeded, Believed, OnlyWrote,
           NextChunk, Sent, HistOf, PayloadAt, GrantsCount, Count, Active;
      ghost var me, req, s, was := HalfAt(slot), Seal(packet[..], request_len), device.service, hist;
      ghost var m := device.Gauge();
      carry := Exchange();
      NotBelieved(req, packet[..wire_len]);
      hist := Sent(was, me.sid, NextChunk(me, s));
      WriteOnWire(me, HalfAt(1 - slot), s, was, m, device.Gauge());
      WriteFailed(me, HalfAt(1 - slot), s, was, device.sent, req, device.dev, device.service);
      if !carry {
        carry := CheckRw();
      }
    }

    /** The history entry of a WRITE is what went on the wire. */
    lemma WriteOnWire(me: Half, other: Half, s: Service, was: map<nat, Hist>, m: Meter, m': Meter)
      requires Coupled(me, other, Idle, s, was) && Writing(me) && Later(m, m')
      requires m'.writes == m.writes + [Write(me.o.handle, me.o.offset, me.cache[..me.o.len])]
      ensures OnlyWrote(Account(was, m), Account(Sent(was, me.sid, NextChunk(me, s)), m'), me.sid, me.o.handle)
      ensures |HistOf(Sent(was, me.sid, NextChunk(me, s)), me.sid).writes| == |HistOf(was, me.sid).writes| + 1
    {
      hide Coupled, Later, OnlyWrote;
      ChunkOnWire(me, other, Idle, s, was);
      SentOnlyWrote(was, me.sid, NextChunk(me, s), me.o.handle, m, m');
    }

    /** What one pass of `flush` may do to its owner. */
    twostate predicate Flushed(a: byte, again: bool)
      requires Shape() && slot < 2 && old(slot) == slot
      reads owners, caches, device, `slot, `sid0, `sid1, `hist
    {
      var o, n := old(OwnerAt(slot)), OwnerAt(slot);
      && HalfAt(1 - slot) == old(HalfAt(1 - slot))
      && n == o.(offset := n.offset, len := n.len, pos := n.pos, fault := n.fault)
      && OnlyWrote(old(Acc()), Acc(), HalfAt(slot).sid, o.handle)
      && (a == IO_ERROR ==> !again && n.fault == 1 && Linked(slot))
      && (a == SUCCESS ==> n.fault == 0 && (again <==> n.len > 0) && (n.len < o.len || (n.len == 0 && o.len == 0)))
      && (a == SUCCESS ==>
            Coupled(WithOwner(HalfAt(slot), n.(committed := if o.len == 0 then 1 else 0)), HalfAt(1 - slot),
                    device.dev, device.service, hist))
      && (a == SUCCESS || a == IO_ERROR)
    }

    /** The acknowledgement of a WRITE that has been let through. */
    method TakeAcknowledgement(ghost s: Service, ghost was: map<nat, Hist>, ghost req: seq<byte>)
      returns (a: byte, again: bool)
      requires Shape() && slot < 2 && Writing(HalfAt(slot)) && Coupled(HalfAt(slot), HalfAt(1 - slot), Idle, s, was)
      requires owners[slot].len <= 128 && wire_len <= PACKET_MAX
      requires Parse(req) == var me := HalfAt(slot); Write(me.o.handle, me.o.offset, me.cache[..me.o.len])
      requires GrantsCount(packet[..wire_len], CMD_WRITE, OwnerAt(slot).handle) && count == Count(packet[..wire_len])
      requires Effect(s, req, packet[..wire_len], device.service)
      modifies owners, caches
      ensures HalfAt(1 - slot) == old(HalfAt(1 - slot))
      ensures a == SUCCESS || a == IO_ERROR
      ensures var o, n := old(OwnerAt(slot)), OwnerAt(slot);
              && (a == IO_ERROR ==> HalfAt(slot) == WithOwner(old(HalfAt(slot)), o.(fault := 1)))
              && (a == IO_ERROR ==> !again && !Believed(req, packet[..wire_len]))
              && (a == SUCCESS ==>
                    && n == o.(offset := n.offset, len := n.len)
                    && (again <==> n.len > 0) && (n.len < o.len || (n.len == 0 && o.len == 0))
                    && Coupled(WithOwner(HalfAt(slot), n.(committed := if o.len == 0 then 1 else 0)), HalfAt(1 - slot),
                               Idle, device.service, Sent(was, HalfAt(slot).sid, NextChunk(old(HalfAt(slot)), s))))
    {
      hide Coupled, Effect, Parse, Accepted, SioAdapter.Ok, U32, U16, OnlyWrote, Sent, NextChunk, Believed, Impeded,
           Quiet, GrantsCount, Count, Advance, HistOf, Later, Resident.CacheAt;
      ghost var me, other := HalfAt(slot), HalfAt(1 - slot);
      Bounded(me, other, Idle, s, was);
      NotBelieved(req, packet[..wire_len]);
      a, again := Acknowledge();
      if a == SUCCESS {
        WriteAcknowledged(me, other, s, was, req, packet[..wire_len], device.service,
                          WithOwner(HalfAt(slot), OwnerAt(slot).(committed := if me.o.len == 0 then 1 else 0)));
      }
    }

    /** The verdict on a WRITE: `write_error`, or the acknowledgement. */
    method Conclude(carry: bool, ghost s: Service, ghost was: map<nat, Hist>, ghost req: seq<byte>, ghost m: Meter)
      returns (a: byte, again: bool)
      requires Shape() && slot < 2 && Writing(HalfAt(slot)) && Coupled(HalfAt(slot), HalfAt(1 - slot), Idle, s, was)
      requires Parse(req) == var me := HalfAt(slot); Write(me.o.handle, me.o.offset, me.cache[..me.o.len])
      requires hist == Sent(was, HalfAt(slot).sid, NextChunk(HalfAt(slot), s))
      requires Coupled(WithOwner(HalfAt(slot), OwnerAt(slot).(fault := 1)), HalfAt(1 - slot), device.dev,
                       device.service, hist)
      requires !carry ==>
                && device.dev.Idle? && wire_len <= PACKET_MAX
                && GrantsCount(packet[..wire_len], CMD_WRITE, OwnerAt(slot).handle)
                && count == Count(packet[..wire_len])
                && Effect(s, req, packet[..wire_len], device.service)
      requires carry || !Believed(req, packet[..wire_len]) ==> Impeded(m, device.Gauge())
      modifies owners, caches
      ensures Flushed(a, again)
      ensures a == SUCCESS ==> !carry
      ensures a == IO_ERROR ==> Impeded(m, device.Gauge())
    {
      hide Coupled, Effect, Parse, Accepted, SioAdapter.Ok, U32, U16, OnlyWrote, Sent, NextChunk, Believed, Impeded,
           Quiet, GrantsCount, Count, Advance, HistOf, Later;
      Bounded(HalfAt(slot), HalfAt(1 - slot), Idle, s, was);
      QuietSame(device.Gauge());
      QuietOnlyWrote(hist, device.Gauge(), device.Gauge(), HalfAt(slot).sid, OwnerAt(slot).handle);
      if carry {
        a := WriteError();
        return a, false;
      }
      a, again := TakeAcknowledgement(s, was, req);
    }

    /** One pass of `flush` from its exchange on. */
    method SettleWrite() returns (a: byte, again: bool)
      requires Wired() && slot < 2 && Linked(slot) && Writing(HalfAt(slot)) && outstanding == 0
      requires command == CMD_WRITE && Begun(packet[..], CMD_WRITE) && 15 <= request_len <= PACKET_MAX
      requires Parse(Seal(packet[..], request_len))
                 == var me := HalfAt(slot); Write(me.o.handle, me.o.offset, me.cache[..me.o.len])
      modifies `wire_len, `wire_hi, `outstanding, `polls, `payload, `payload_len, `count, `hist,
               packet, owners, caches, device
      ensures Wired() && Flushed(a, again)
      ensures a == SUCCESS ==> outstanding == 0
      ensures a == IO_ERROR ==> Impeded(old(device.Gauge()), device.Gauge())
      ensures |HistOf(hist, HalfAt(slot).sid).writes| <= |HistOf(old(hist), HalfAt(slot).sid).writes| + 1
      ensures device.transactions <= old(device.transactions) + POLLS + 2
    {
      hide Coupled, Effect, Evolves, Parse, Seal, Accepted, SioAdapter.Ok, U32, U16, OnlyWrote, Sent, NextChunk,
           Begun, Framed, Believed, Impeded, HistOf;
      ghost var s, was, req, m := device.service, hist, Seal(packet[..], request_len), device.Gauge();
      var carry := ExchangeWrite();
      a, again := Conclude(carry, s, was, req, m);
    }

    /** Two stretches of writing are one; an excuse in the second is one for both. */
    lemma OneAfterAnother(a0: Account, a1: Account, a2: Account, sid: nat, handle: nat)
      requires OnlyWrote(a0, a1, sid, handle) && OnlyWrote(a1, a2, sid, handle)
      ensures OnlyWrote(a0, a2, sid, handle)
      ensures Impeded(a1.meter, a2.meter) ==> Impeded(a0.meter, a2.meter)
    {
      hide OnlyWrote, Impeded;
      OnlyWroteLater(a0, a1, sid, handle);
      OnlyWroteTransitive(a0, a1, a2, sid, handle);
      if Impeded(a1.meter, a2.meter) {
        ImpededEarlier(a0.meter, a1.meter, a2.meter);
      }
    }

    /** `write_error` where no WRITE has been sent. */
    method FaultWriter() returns (a: byte)
      requires Wired() && slot < 2 && Linked(slot) && Writing(HalfAt(slot)) && owners[slot].pos <= 128
      modifies owners
      ensures a == IO_ERROR && owners[slot] == old(owners[slot]).(fault := 1)
      ensures HalfAt(1 - slot) == old(HalfAt(1 - slot)) && Linked(slot)
    {
      hide Coupled, SioAdapter.Ok, U32, U16;
      WriterMarked(HalfAt(slot), HalfAt(1 - slot), device.dev, device.service, hist,
                   WithOwner(HalfAt(slot), OwnerAt(slot).(fault := 1)));
      a := WriteError();
    }

    /** One pass of `flush`. */
    method FlushPass() returns (a: byte, again: bool)
      requires Wired() && slot < 2 && Linked(slot) && Writing(HalfAt(slot))
      modifies `command, `polls, `wire_len, `wire_hi, `outstanding, `request_len, `payload, `payload_len,
               `count, `hist, packet, owners, caches, device
      ensures Wired() && Flushed(a, again)
      ensures a == SUCCESS ==> outstanding == 0
      ensures a == IO_ERROR ==> Impeded(old(device.Gauge()), device.Gauge())
      ensures |HistOf(hist, HalfAt(slot).sid).writes| <= |HistOf(old(hist), HalfAt(slot).sid).writes| + 1
      ensures device.transactions <= old(device.transactions) + old(Drain()) + POLLS + 2
    {
      hide Coupled, Effect, Evolves, Parse, Seal, Accepted, SioAdapter.Ok, U32, U16, OnlyWrote, Begun, Impeded,
           Quiet, HistOf, Advance, Resident.Linked;
      ghost var a0, sid, handle := Acc(), HalfAt(slot).sid, OwnerAt(slot).handle;
      var carry := ReadyWrite();
      ghost var a1 := Acc();
      QuietOnlyWrote(hist, a0.meter, a1.meter, sid, handle);
      if !carry {
        a, again := SettleWrite();
        OneAfterAnother(a0, a1, Acc(), sid, handle);
        return;
      }
      a := FaultWriter();
      return a, false;
    }

    /** What `flush` may cost once the wire is drained. */
    function FlushCost(len: nat): nat {
      (POLLS as nat + 2) * Passes(len)
    }

    /** At most one WRITE for each byte, and one with none. */
    function Passes(len: nat): nat {
      if len == 0 then 1 else len
    }

    /** `flush`: pass after pass until the cache is empty or a pass fails; LEN
        falls every time, and with LEN = 0 there is exactly one pass. */
    method Flush() returns (a: byte)
      requires Wired() && slot < 2 && Linked(slot) && Writing(HalfAt(slot))
      modifies `command, `polls, `wire_len, `wire_hi, `outstanding, `request_len, `payload, `payload_len,
               `count, `hist, packet, owners, caches, device
      ensures Wired() && Flushed(a, false)
      ensures a == SUCCESS ==> outstanding == 0
      ensures a == IO_ERROR ==> Impeded(old(device.Gauge()), device.Gauge())
      ensures |HistOf(hist, HalfAt(slot).sid).writes|
              <= |HistOf(old(hist), HalfAt(slot).sid).writes| + Passes(old(OwnerAt(slot)).len)
      ensures device.transactions <= old(device.transactions) + old(Drain()) + FlushCost(old(OwnerAt(slot).len))
    {
      hide Coupled, Effect, Evolves, Parse, Seal, Accepted, SioAdapter.Ok, U32, U16, OnlyWrote, Begun, Impeded,
           Quiet, HistOf;
      ghost var a0, o0, sid := Acc(), OwnerAt(slot), HalfAt(slot).sid;
      QuietSame(a0.meter);
      QuietOnlyWrote(hist, a0.meter, a0.meter, sid, o0.handle);
      while true
        invariant Wired() && Linked(slot) && Writing(HalfAt(slot))
        invariant HalfAt(1 - slot) == old(HalfAt(1 - slot))
        invariant var n := OwnerAt(slot); n == o0.(offset := n.offset, len := n.len, pos := n.pos)
        invariant OnlyWrote(a0, Acc(), sid, o0.handle)
        invariant OwnerAt(slot) == o0 || (0 < OwnerAt(slot).len < o0.len && outstanding == 0)
        invariant |HistOf(hist, sid).writes| + Passes(OwnerAt(slot).len) <= |HistOf(a0.hist, sid).writes|
                    + Passes(o0.len)
        invariant device.transactions + Drain() + FlushCost(OwnerAt(slot).len)
                  <= old(device.transactions) + old(Drain()) + FlushCost(o0.len)
        decreases OwnerAt(slot).len
      {
        ghost var a1 := Acc();
        var again;
        a, again := FlushPass();
        OneAfterAnother(a0, a1, Acc(), sid, o0.handle);
        if !again {
          return;
        }
      }
    }

    /** `@commit`: with LEN = 0, exactly one terminal commit. */
    method Commit() returns (a: byte)
      requires Wired() && slot < 2 && Linked(slot) && Writing(HalfAt(slot)) && OwnerAt(slot).len == 0
      modifies `command, `polls, `wire_len, `wire_hi, `outstanding, `request_len, `payload, `payload_len,
               `count, `hist, packet, owners, caches, device
      ensures Wired() && Linked(slot) && HalfAt(1 - slot) == old(HalfAt(1 - slot))
      ensures OnlyWrote(old(Acc()), Acc(), HalfAt(slot).sid, old(OwnerAt(slot)).handle)
      ensures var o, n := old(OwnerAt(slot)), OwnerAt(slot);
              && n == o.(offset := n.offset, len := n.len, pos := n.pos, fault := n.fault, committed := n.committed)
              && (a == SUCCESS ==> n.fault == 0 && n.committed == 1 && outstanding == 0)
              && (a != SUCCESS ==> a == IO_ERROR && n.fault == 1 && n.committed == 0)
      ensures a == IO_ERROR ==> Impeded(old(device.Gauge()), device.Gauge())
      ensures device.transactions <= old(device.transactions) + old(Drain()) + POLLS + 2
    {
      hide Coupled, Effect, Evolves, Parse, Seal, Accepted, SioAdapter.Ok, U32, U16, OnlyWrote, Begun;
      a := Flush();
      if a != SUCCESS {
        return;
      }
      ghost var done := WithOwner(HalfAt(slot), OwnerAt(slot).(committed := 1));
      owners[slot] := owners[slot].(committed := owners[slot].committed + 1);
      assert HalfAt(slot) == done;
    }

    /** `finish_write`: flush what is cached, then send the one zero-length
        commit. A faulted or committed owner sends nothing. */
    method FinishWrite() returns (a: byte)
      requires Wired() && slot < 2 && Linked(slot) && Active(HalfAt(slot)) && OwnerAt(slot).mode != INPUT
      modifies `command, `polls, `wire_len, `wire_hi, `outstanding, `request_len, `payload, `payload_len,
               `count, `hist, packet, owners, caches, device
      ensures Wired() && Linked(slot) && HalfAt(1 - slot) == old(HalfAt(1 - slot))
      ensures OnlyWrote(old(Acc()), Acc(), HalfAt(slot).sid, old(OwnerAt(slot)).handle)
      ensures var o, n := old(OwnerAt(slot)), OwnerAt(slot);
              && n == o.(offset := n.offset, len := n.len, pos := n.pos, fault := n.fault, committed := n.committed)
              && (a == SUCCESS <==> n.fault == 0) && (a == SUCCESS ==> n.committed == 1)
                 && (a == SUCCESS || a == IO_ERROR)
              && (a == IO_ERROR ==> n.fault == 1 && n.committed == o.committed)
              && (a == IO_ERROR ==> o.fault != 0 || Impeded(old(device.Gauge()), device.Gauge()))
              && (o.fault != 0 || o.committed != 0 ==>
                    HalfAt(slot) == old(HalfAt(slot)) && Acc() == old(Acc()) && outstanding == old(outstanding)
                    && device.transactions == old(device.transactions))
      ensures device.transactions + Drain() <= old(device.transactions) + old(Drain())
                + (POLLS as nat + 2) * (old(OwnerAt(slot)).len as nat + 1)
                                               + (if a == SUCCESS then 0 else POLLS as nat + 1)
    {
      hide Coupled, Effect, Evolves, Parse, Seal, Accepted, SioAdapter.Ok, U32, U16, OnlyWrote, Begun, Impeded,
           Quiet, HistOf;
      ghost var a0, me := Acc(), HalfAt(slot);
      Bounded(me, HalfAt(1 - slot), device.dev, device.service, hist);
      QuietSame(a0.meter);
      QuietOnlyWrote(hist, a0.meter, a0.meter, me.sid, me.o.handle);
      if owners[slot].fault != 0 {
        return IO_ERROR;
      }
      if owners[slot].committed != 0 {
        return SUCCESS;
      }
      if owners[slot].len != 0 {
        a := Flush();
        if a != SUCCESS {
          return;
        }
        assert WithOwner(HalfAt(slot), OwnerAt(slot).(committed := 0)) == HalfAt(slot);
      }
      ghost var a1 := Acc();
      a := Commit();
      OneAfterAnother(a0, a1, Acc(), me.sid, me.o.handle);
    }

    /** The store of `do_put`: the byte goes behind the cached ones. */
    method StoreByte()
      requires Shape() && slot < 2 && owners[slot].len < 128
      modifies owners, caches
      ensures owners[1 - slot] == old(owners[1 - slot]) && CacheAt(1 - slot) == old(CacheAt(1 - slot))
      ensures OwnerAt(slot) == old(OwnerAt(slot)).(pos := old(owners[slot].len), len := old(owners[slot].len) + 1)
      ensures CacheAt(slot) == old(CacheAt(slot)[owners[slot].len := caller_a])
    {
      hide U32, U16;
      owners[slot] := owners[slot].(pos := owners[slot].len);
      var y := CacheIndex();
      caches[y] := caller_a;
      owners[slot] := owners[slot].(len := owners[slot].len + 1);
    }

    method CacheByte()
      requires Shape() && slot < 2 && Linked(slot) && Writing(HalfAt(slot)) && owners[slot].len < 128
      modifies `hist, owners, caches
      ensures Linked(slot) && HalfAt(1 - slot) == old(HalfAt(1 - slot))
      ensures var o := old(OwnerAt(slot)); OwnerAt(slot) == o.(pos := o.len, len := o.len + 1)
      ensures var h := HistOf(old(hist), HalfAt(slot).sid);
              hist == old(hist)[HalfAt(slot).sid := h.(puts := h.puts + [caller_a])]
    {
      hide Coupled, SioAdapter.Ok, U32, U16;
      ghost var me, other, h := HalfAt(slot), HalfAt(1 - slot), HistOf(hist, HalfAt(slot).sid);
      StoreByte();
      CachedByte(me, other, device.dev, device.service, hist, caller_a, HalfAt(slot));
      hist := hist[me.sid := h.(puts := h.puts + [caller_a])];
    }

    /** The byte of a writer: cached, and a full cache flushed. */
    method PutByte() returns (a: byte)
      requires Wired() && slot < 2 && Linked(slot) && Writing(HalfAt(slot)) && owners[slot].len < 128
      modifies `command, `polls, `wire_len, `wire_hi, `outstanding, `request_len, `payload, `payload_len,
               `count, `hist, packet, owners, caches, device
      ensures Wired() && Linked(slot) && HalfAt(1 - slot) == old(HalfAt(1 - slot))
      ensures var o, n := old(OwnerAt(slot)), OwnerAt(slot);
              && n == o.(offset := n.offset, len := n.len, pos := n.pos, fault := n.fault)
              && a == (if n.fault == 0 then SUCCESS else IO_ERROR) && (n.fault == 0 ==> n.len < 128)
              && (o.len < 127 ==> a == SUCCESS && device.Gauge() == old(device.Gauge()) && n.len == o.len + 1
                                  && n.offset == o.offset)
              && (a == SUCCESS && o.len >= 127 ==> n.len == 0)
      ensures a == IO_ERROR ==> Impeded(old(device.Gauge()), device.Gauge())
      ensures Recorded(old(Acc()), Acc(), HalfAt(slot).sid, old(OwnerAt(slot)).handle, [caller_a], [])
      ensures device.transactions <= old(device.transactions) + old(Drain())
                                     + (POLLS as nat + 2) * (old(OwnerAt(slot)).len as nat + 1)
    {
      hide Coupled, Effect, Evolves, Parse, Seal, Accepted, SioAdapter.Ok, U32, U16, OnlyWrote, Begun, Recorded,
           Impeded, HistOf, Quiet;
      ghost var a0, sid, handle := Acc(), HalfAt(slot).sid, OwnerAt(slot).handle;
      CacheByte();
      QuietSame(a0.meter);
      QuietOnlyWrote(hist, a0.meter, a0.meter, sid, handle);
      if owners[slot].len == 128 {
        a := Flush();
      } else {
        a := SUCCESS;
      }
      PutIsRecorded(a0, sid, handle, caller_a, Acc());
    }

    /** `do_put`: cache the byte, flush a full cache. */
    method DoPut() returns (a: byte)
      requires Wired() && slot < 2 && Linked(slot) && Active(HalfAt(slot)) && Rested(slot)
      modifies `command, `polls, `wire_len, `wire_hi, `outstanding, `request_len, `payload, `payload_len,
               `count, `hist, packet, owners, caches, device
      ensures Wired() && Linked(slot) && Rested(slot) && HalfAt(1 - slot) == old(HalfAt(1 - slot))
      ensures var o, n := old(OwnerAt(slot)), OwnerAt(slot);
              && n == o.(offset := n.offset, len := n.len, pos := n.pos, fault := n.fault)
              && (o.mode == INPUT || o.fault != 0 || o.committed != 0 ==>
                    && a == (if o.mode == INPUT then UNSUPPORTED else IO_ERROR)
                    && n == o && Acc() == old(Acc()) && device.transactions == old(device.transactions))
              && (o.mode != INPUT && o.fault == 0 && o.committed == 0 ==>
                    && a == (if n.fault == 0 then SUCCESS else IO_ERROR)
                    && (a == IO_ERROR ==> Impeded(old(device.Gauge()), device.Gauge()))
                    && (o.len < 127 ==> a == SUCCESS && device.Gauge() == old(device.Gauge()) && n.len == o.len + 1
                                        && n.offset == o.offset)
                    && (a == SUCCESS && o.len >= 127 ==> n.len == 0)
                    && Recorded(old(Acc()), Acc(), HalfAt(slot).sid, o.handle, [caller_a], []))
      ensures device.transactions <= old(device.transactions) + old(Drain())
                + (POLLS as nat + 2) * (old(OwnerAt(slot)).len as nat + 1)
    {
      hide Coupled, Effect, Evolves, Parse, Seal, Accepted, SioAdapter.Ok, U32, U16, OnlyWrote, Begun, Recorded,
           Impeded, HistOf;
      Bounded(HalfAt(slot), HalfAt(1 - slot), device.dev, device.service, hist);
      if owners[slot].mode == INPUT {
        return UNSUPPORTED;
      }
      if owners[slot].fault != 0 || owners[slot].committed != 0 {
        return IO_ERROR;
      }
      WritersDoNotRead(HalfAt(slot), HalfAt(1 - slot), device.dev, device.service, hist);
      a := PutByte();
    }

    /** The request of a READ, INFO or CLOSE for the owner. */
    ghost function Asked(cmd: byte): Request
      requires Shape() && slot < 2
      reads `slot, owners
    {
      if cmd == CMD_INFO then Info(OwnerAt(slot).handle)
      else if cmd == CMD_CLOSE then Close(OwnerAt(slot).handle)
      else Read(OwnerAt(slot).handle, OwnerAt(slot).offset, 128)
    }

    /** READ asks for 128 bytes; INFO and CLOSE are bare session packets. */
    method FillAsk(cmd: byte)
      requires Shape() && slot < 2 && (cmd == CMD_READ || cmd == CMD_INFO || cmd == CMD_CLOSE)
      requires Begun(packet[..], cmd) && request_len == 9 && packet[13] == 0 && packet[14] == 0
      requires U16(packet[7], packet[8]) == OwnerAt(slot).handle
      requires U32(packet[9], packet[10], packet[11], packet[12]) == OwnerAt(slot).offset
      modifies `request_len, packet
      ensures Begun(packet[..], cmd) && 9 <= request_len <= PACKET_MAX
      ensures Parse(Seal(packet[..], request_len)) == Asked(cmd)
    {
      if cmd == CMD_READ {
        packet[13] := 128;
        request_len := 15;
        SealsRead(packet[..]);
      } else {
        SealsBare(packet[..], cmd);
      }
    }

    /** That request is built, with the wire clear. */
    method ReadyAsk(cmd: byte) returns (carry: bool)
      requires Wired() && slot < 2 && Linked(slot) && Active(HalfAt(slot))
      requires cmd == CMD_READ || cmd == CMD_INFO || cmd == CMD_CLOSE
      modifies `command, `polls, `wire_len, `wire_hi, `outstanding, `request_len, packet, device
      ensures Quiet(old(device.Gauge()), device.Gauge())
      ensures carry ==> Impeded(old(device.Gauge()), device.Gauge())
      ensures Wired() && Linked(slot) && command == cmd && device.trace == old(device.trace)
      ensures !carry ==> outstanding == 0 && Begun(packet[..], cmd) && 9 <= request_len <= PACKET_MAX
                         && Parse(Seal(packet[..], request_len)) == Asked(cmd)
      ensures carry ==> outstanding == 1 == old(outstanding)
      ensures device.transactions <= old(device.transactions) + old(Drain())
    {
      hide Coupled, Effect, Evolves, Parse, Seal, SioAdapter.Ok, U32, U16, Active, Quiet, Impeded;
      ghost var d, s := device.dev, device.service;
      carry := SessionPacket(cmd);
      EvolvingKeepsCoupled(HalfAt(slot), HalfAt(1 - slot), d, s, device.dev, device.service, hist);
      if !carry {
        FillAsk(cmd);
      }
    }

    /** The wire's account of a request that is no WRITE, after the draining. */
    lemma AskedQuietly(m: Meter, m1: Meter, m2: Meter, req: seq<byte>, reply: seq<byte>, carry: bool)
      requires Quiet(m, m1) && Later(m1, m2) && m2.writes == m1.writes
      requires carry || !Believed(req, reply) ==> Impeded(m1, m2)
      ensures Quiet(m, m2)
      ensures carry || !Believed(req, reply) ==> Impeded(m, m2)
      ensures Parse(req).Read? && !GrantsData(reply, Parse(req).handle) ==> Impeded(m, m2)
      ensures Parse(req).Open? && !GrantsOpen(reply) ==> Impeded(m, m2)
    {
      hide Later, Impeded, Believed, GrantsData, GrantsOpen, Parse;
      LaterTransitive(m, m1, m2);
      NotBelieved(req, reply);
      if Impeded(m1, m2) {
        ImpededEarlier(m, m1, m2);
      }
    }

    /** The exchange of a READ or INFO. */
    method ExchangeAsk(cmd: byte) returns (carry: bool)
      requires Wired() && slot < 2 && Linked(slot) && Active(HalfAt(slot)) && outstanding == 0
      requires cmd == command && (cmd == CMD_READ || cmd == CMD_INFO)
      requires Begun(packet[..], cmd) && 9 <= request_len <= PACKET_MAX
      requires Parse(Seal(packet[..], request_len)) == Asked(cmd)
      modifies `wire_len, `wire_hi, `outstanding, `polls, `payload, `payload_len, packet, device
      ensures Wired() && Linked(slot)
      ensures device.trace == old(device.trace) + [Asked(cmd)]
      ensures Quiet(old(device.Gauge()), device.Gauge())
      ensures carry || (cmd == CMD_READ && !GrantsData(packet[..wire_len], OwnerAt(slot).handle)) ==>
                Impeded(old(device.Gauge()), device.Gauge())
      ensures !carry ==> outstanding == 0 && wire_len <= PACKET_MAX && Accepted(packet[..wire_len], cmd)
                         && payload == PayloadAt(packet[..wire_len]) && payload_len == wire_len - payload
      ensures !carry && (cmd == CMD_READ ==> GrantsData(packet[..wire_len], OwnerAt(slot).handle)) ==>
                Fulfilled(device.Gauge())
      ensures !carry && cmd == CMD_READ ==>
                AnswersRead(HalfAt(slot), HalfAt(1 - slot), hist, packet[..wire_len], device.service)
      ensures device.transactions <= old(device.transactions) + POLLS + 2
    {
      hide Coupled, Effect, Evolves, Parse, Seal, Accepted, SioAdapter.Ok, U32, U16, AnswersRead, Later, Impeded,
           Believed, GrantsData, PayloadAt, Active;
      ghost var me, other, s, m := HalfAt(slot), HalfAt(1 - slot), device.service, device.Gauge();
      ghost var req := Seal(packet[..], request_len);
      QuietSame(m);
      carry := Exchange();
      AskedQuietly(m, m, device.Gauge(), req, packet[..wire_len], carry);
      ExchangeKeepsCoupled(me, other, Idle, s, hist, device.sent, req, device.dev, device.service);
      if !carry {
        BelievedReply(req, packet[..wire_len]);
      }
      if !carry && cmd == CMD_READ {
        ReadIsAnswered(me, other, s, hist, req, packet[..wire_len], device.service);
      }
    }

    /** A READ or INFO for the owner: `session_packet`, then `exchange`. */
    method Ask(cmd: byte) returns (carry: bool)
      requires Wired() && slot < 2 && Linked(slot) && Active(HalfAt(slot))
      requires cmd == CMD_READ || cmd == CMD_INFO
      modifies `command, `polls, `wire_len, `wire_hi, `outstanding, `request_len, `payload, `payload_len, packet, device
      ensures Wired() && Linked(slot)
      ensures (carry && device.trace == old(device.trace)) || device.trace == old(device.trace) + [Asked(cmd)]
      ensures Quiet(old(device.Gauge()), device.Gauge())
      ensures carry || (cmd == CMD_READ && !GrantsData(packet[..wire_len], OwnerAt(slot).handle)) ==>
                Impeded(old(device.Gauge()), device.Gauge())
      ensures !carry ==> outstanding == 0 && wire_len <= PACKET_MAX && Accepted(packet[..wire_len], cmd)
                         && payload == PayloadAt(packet[..wire_len]) && payload_len == wire_len - payload
                            && command == cmd
      ensures !carry && (cmd == CMD_READ ==> GrantsData(packet[..wire_len], OwnerAt(slot).handle)) ==>
                Fulfilled(device.Gauge())
      ensures !carry && cmd == CMD_READ ==>
                AnswersRead(HalfAt(slot), HalfAt(1 - slot), hist, packet[..wire_len], device.service)
      ensures device.transactions + Drain() <= old(device.transactions) + old(Drain()) + POLLS + 2
                                               + (if carry then POLLS as nat + 1 else 0)
    {
      hide Coupled, Effect, Evolves, Parse, Seal, Accepted, SioAdapter.Ok, U32, U16, AnswersRead, Later, Impeded,
           Believed, GrantsData, PayloadAt, Active, Begun, Fulfilled;
      ghost var m := device.Gauge();
      carry := ReadyAsk(cmd);
      if carry {
        return;
      }
      ghost var m1 := device.Gauge();
      carry := ExchangeAsk(cmd);
      LaterTransitive(m, m1, device.Gauge());
      ImpededWithin(m, m1, device.Gauge());
    }

    /** The copy loop of `do_get`, into the half of the cache that starts at base. */
    method CopyReply(base: byte)
      requires Shape() && base <= 128 && count <= 128 && payload <= 7
      modifies caches
      ensures forall i :: base <= i < base as nat + count ==> caches[i] == packet[payload as int + 12 - base + i]
      ensures forall i :: 0 <= i < 256 && !(base <= i < base as nat + 128) ==> caches[i] == old(caches[i])
    {
      var cache_pos := base;
      var y: int := payload;
      var x: nat := 0;
      while x != count
        invariant x <= count && cache_pos == Wrap(base + x) && y == payload + x
        invariant forall i :: base <= i < base as nat + x ==> caches[i] == packet[payload as int + 12 - base + i]
        invariant forall i :: 0 <= i < 256 && !(base <= i < base as nat + 128) ==> caches[i] == old(caches[i])
        decreases count - x
      {
        var temp := packet[y + 12];
        caches[cache_pos] := temp;
        cache_pos := Inc(cache_pos);
        y := y + 1;
        x := x + 1;
      }
    }

    /** What the copy comes to for the two halves. */
    lemma Copied(was: seq<byte>, now: seq<byte>, base: nat, other: nat, data: seq<byte>)
      requires (base == 0 && other == 128) || (base == 128 && other == 0)
      requires |was| == |now| == 256 && |data| <= 128
      requires forall i :: base <= i < base + |data| ==> now[i] == data[i - base]
      requires forall i :: 0 <= i < 256 && !(base <= i < base + 128) ==> now[i] == was[i]
      ensures now[base..base + 128][..|data|] == data
      ensures now[other..other + 128] == was[other..other + 128]
    {
      var front := now[base..base + 128][..|data|];
      forall i | 0 <= i < |data| ensures front[i] == data[i] {
        assert front[i] == now[base + i];
      }
      var theirs, before := now[other..other + 128], was[other..other + 128];
      forall i | 0 <= i < 128 ensures theirs[i] == before[i] {
        assert now[other + i] == was[other + i];
      }
    }

    /** The reply's data becomes the front of the owner's half. */
    method Unload()
      requires Shape() && slot < 2 && owners[slot].pos == 0 && count <= 128 && payload <= 7
      modifies caches
      ensures CacheAt(slot)[..count] == packet[payload + 12..payload as nat + 12 + count]
      ensures CacheAt(1 - slot) == old(CacheAt(1 - slot))
    {
      ghost var was := caches[..];
      HalfOfCaches();
      var cache_pos := CacheIndex();
      CopyReply(cache_pos);
      Copied(was, caches[..], cache_pos, 128 - cache_pos, packet[payload + 12..payload as nat + 12 + count]);
      HalfOfCaches();
    }

    /** The data of a READ reply, as the copy loop finds it. */
    lemma DataInPacket(p: seq<byte>, n: nat, count: nat)
      requires 6 <= n <= |p| && n - PayloadAt(p[..n]) >= 12
      requires count == Count(p[..n]) && count <= n - PayloadAt(p[..n]) - 12
      ensures var y := PayloadAt(p[..n]); y <= 7 && Data(p[..n]) == p[y + 12..y + 12 + count]
    {
    }

    /** `do_get` once every check has passed: the reply becomes the cache. */
    method TakeReply()
      requires Shape() && slot < 2 && 6 <= wire_len <= PACKET_MAX
      requires payload == PayloadAt(packet[..wire_len]) && payload_len == wire_len - payload
      requires payload_len >= 12 && count == Count(packet[..wire_len]) && count <= payload_len - 12 && count <= 128
      modifies owners, caches
      ensures owners[1 - slot] == old(owners[1 - slot]) && CacheAt(1 - slot) == old(CacheAt(1 - slot))
      ensures var o := old(OwnerAt(slot));
              OwnerAt(slot) == o.(offset := Advance(o.offset, count), len := count, pos := 0,
                                  eof := if Last(packet[..wire_len]) then 1 else 0)
      ensures CacheAt(slot)[..count] == Data(packet[..wire_len])
    {
      hide U32, U16, PayloadAt, Data, Count, Advance;
      assert packet[..][..wire_len] == packet[..wire_len];
      DataInPacket(packet[..], wire_len, count);
      owners[slot] := owners[slot].(eof := packet[payload + 1] % 2, len := count);
      AddOffset(count);
      owners[slot] := owners[slot].(pos := 0);
      Unload();
    }

    /** `do_get` from the reply on: its checks, and the copy. The owner is only
        touched once every check has passed. */
    method AcceptReply() returns (carry: bool)
      requires Wired() && slot < 2 && Linked(slot) && Active(HalfAt(slot)) && Reader(OwnerAt(slot))
      requires OwnerAt(slot).pos >= OwnerAt(slot).len
      requires outstanding == 0 && wire_len <= PACKET_MAX && Accepted(packet[..wire_len], CMD_READ)
      requires command == CMD_READ && payload == PayloadAt(packet[..wire_len]) && payload_len == wire_len - payload
      requires AnswersRead(HalfAt(slot), HalfAt(1 - slot), hist, packet[..wire_len], device.service)
      modifies `count, owners, caches
      ensures Wired() && Linked(slot) && HalfAt(1 - slot) == old(HalfAt(1 - slot))
      ensures carry <==> !GrantsData(packet[..wire_len], old(OwnerAt(slot).handle))
      ensures carry ==> HalfAt(slot) == old(HalfAt(slot))
      ensures !carry ==> var o, n := old(OwnerAt(slot)), OwnerAt(slot);
                         n == o.(offset := n.offset, len := count, pos := 0, eof := n.eof)
    {
      hide Coupled, Effect, Parse, SioAdapter.Ok, U32, U16, AnswersRead, Framed, Advance;
      ghost var me, other := HalfAt(slot), HalfAt(1 - slot);
      carry := CheckRw();
      if carry {
        return;
      }
      if payload_len - 12 < count {
        return true;
      }
      ghost var reply := packet[..wire_len];
      TakeReply();
      RefilledByAnswer(me, other, hist, reply, device.service, HalfAt(slot));
    }

    /** `do_get` where the cache is used up: READ, its reply, and the copy. */
    method Refill() returns (carry: bool)
      requires Wired() && slot < 2 && Linked(slot) && Active(HalfAt(slot)) && Reader(OwnerAt(slot))
      requires OwnerAt(slot).pos >= OwnerAt(slot).len
      modifies `command, `polls, `wire_len, `wire_hi, `outstanding, `request_len, `payload, `payload_len, `count,
               owners, caches, packet, device
      ensures Wired() && Linked(slot) && HalfAt(1 - slot) == old(HalfAt(1 - slot))
      ensures carry ==> HalfAt(slot) == old(HalfAt(slot))
      ensures !carry ==> var o, n := old(OwnerAt(slot)), OwnerAt(slot);
                         n == o.(offset := n.offset, len := count, pos := 0, eof := n.eof)
      ensures var r := old(Read(OwnerAt(slot).handle, OwnerAt(slot).offset, 128));
              (carry && device.trace == old(device.trace)) || device.trace == old(device.trace) + [r]
      ensures Quiet(old(device.Gauge()), device.Gauge())
      ensures carry ==> Impeded(old(device.Gauge()), device.Gauge())
      ensures !carry ==> Fulfilled(device.Gauge())
      ensures device.transactions + Drain() <= old(device.transactions) + old(Drain()) + POLLS + 2
                                               + (if carry then POLLS as nat + 1 else 0)
    {
      hide Coupled, Effect, Evolves, Parse, Seal, SioAdapter.Ok, U32, U16, AnswersRead, Quiet, Impeded, GrantsData,
           Accepted, PayloadAt, Fulfilled;
      carry := Ask(CMD_READ);
      if !carry {
        carry := AcceptReply();
      }
    }

    /** `@cached`: the byte at POS goes to the caller. */
    method Deliver()
      requires Shape() && slot < 2 && Linked(slot) && Active(HalfAt(slot)) && Reader(OwnerAt(slot))
      requires OwnerAt(slot).pos < OwnerAt(slot).len
      modifies `caller_a, `hist, owners
      ensures Linked(slot) && HalfAt(1 - slot) == old(HalfAt(1 - slot))
      ensures OwnerAt(slot) == old(OwnerAt(slot)).(pos := old(OwnerAt(slot).pos) + 1)
      ensures var h := HistOf(old(hist), HalfAt(slot).sid);
              hist == old(hist)[HalfAt(slot).sid := h.(delivered := h.delivered + [caller_a])]
    {
      hide Coupled, SioAdapter.Ok, U32, U16;
      ghost var me, other := HalfAt(slot), HalfAt(1 - slot);
      ghost var h := HistOf(hist, me.sid);
      Bounded(me, other, device.dev, device.service, hist);
      var y := CacheIndex();
      caller_a := caches[y];
      owners[slot] := owners[slot].(pos := owners[slot].pos + 1);
      assert caller_a == me.cache[me.o.pos];
      Delivered(me, other, device.dev, device.service, hist, HalfAt(slot));
      hist := hist[me.sid := h.(delivered := h.delivered + [caller_a])];
    }

    /** A READ, and its first byte if it has one. */
    method ReadFresh() returns (a: byte)
      requires Wired() && slot < 2 && Linked(slot) && Active(HalfAt(slot)) && Reader(OwnerAt(slot))
      requires OwnerAt(slot).pos >= OwnerAt(slot).len
      modifies `command, `polls, `wire_len, `wire_hi, `outstanding, `request_len, `payload, `payload_len, `count,
               `caller_a, `hist, owners, caches, packet, device
      ensures Wired() && Linked(slot) && HalfAt(1 - slot) == old(HalfAt(1 - slot))
      ensures var o, n := old(OwnerAt(slot)), OwnerAt(slot);
              && n == o.(offset := n.offset, len := n.len, pos := n.pos, eof := n.eof)
              && (a == SUCCESS || a == END_OF_FILE || a == IO_ERROR)
              && (a == END_OF_FILE ==> n.pos >= n.len == 0)
              && (a == IO_ERROR ==> n == o && Impeded(old(device.Gauge()), device.Gauge()))
              && (a != IO_ERROR ==> device.trace == old(device.trace) + [Read(o.handle, o.offset, 128)]
                                    && Fulfilled(device.Gauge()))
      ensures Quiet(old(device.Gauge()), device.Gauge())
      ensures var h := HistOf(old(hist), HalfAt(slot).sid);
              if a == SUCCESS then hist == old(hist)[HalfAt(slot).sid := h.(delivered := h.delivered + [caller_a])]
              else hist == old(hist) && caller_a == old(caller_a)
      ensures device.transactions + Drain() <= old(device.transactions) + old(Drain()) + POLLS + 2
                                               + (if a == IO_ERROR then POLLS as nat + 1 else 0)
    {
      hide Coupled, Effect, Evolves, Parse, Seal, Accepted, SioAdapter.Ok, U32, U16, Quiet, Impeded, HistOf, Fulfilled;
      var carry := Refill();
      if carry {
        return IO_ERROR;
      }
      if count == 0 {
        return END_OF_FILE;
      }
      Deliver();
      return SUCCESS;
    }

    /** `@read`: from the cache, or from a fresh READ. */
    method ReadByte() returns (a: byte)
      requires Wired() && slot < 2 && Linked(slot) && Active(HalfAt(slot)) && Reader(OwnerAt(slot))
      modifies `command, `polls, `wire_len, `wire_hi, `outstanding, `request_len, `payload, `payload_len, `count,
               `caller_a, `hist, owners, caches, packet, device
      ensures Wired() && Linked(slot) && HalfAt(1 - slot) == old(HalfAt(1 - slot))
      ensures var o, n := old(OwnerAt(slot)), OwnerAt(slot);
              && n == o.(offset := n.offset, len := n.len, pos := n.pos, eof := n.eof)
              && (a == SUCCESS || a == END_OF_FILE || a == IO_ERROR)
              && (o.pos < o.len ==> a == SUCCESS && device.transactions == old(device.transactions))
              && (o.pos >= o.len && o.eof != 0 ==> a == END_OF_FILE && n == o)
              && (a == END_OF_FILE ==> n.pos >= n.len && (o.eof == 0 ==> n.len == 0))
              && (a == IO_ERROR ==> n == o && Impeded(old(device.Gauge()), device.Gauge()))
              && (a == END_OF_FILE && o.eof == 0 ==>
                    device.trace == old(device.trace) + [Read(o.handle, o.offset, 128)] && Fulfilled(device.Gauge()))
      ensures Quiet(old(device.Gauge()), device.Gauge())
      ensures var h := HistOf(old(hist), HalfAt(slot).sid);
              if a == SUCCESS then hist == old(hist)[HalfAt(slot).sid := h.(delivered := h.delivered + [caller_a])]
              else hist == old(hist) && caller_a == old(caller_a)
      ensures device.transactions + Drain() <= old(device.transactions) + old(Drain()) + POLLS + 2
                                               + (if a == IO_ERROR then POLLS as nat + 1 else 0)
    {
      hide Coupled, Effect, Evolves, Parse, Seal, Accepted, SioAdapter.Ok, U32, U16, Quiet, Impeded, Fulfilled;
      Bounded(HalfAt(slot), HalfAt(1 - slot), device.dev, device.service, hist);
      QuietSame(device.Gauge());
      if owners[slot].pos >= owners[slot].len {
        if owners[slot].eof != 0 {
          return END_OF_FILE;
        }
        a := ReadFresh();
        return;
      }
      Deliver();
      return SUCCESS;
    }

    /** A POST turns from writing to reading: commit, then start at offset 0. */
    method TurnAround() returns (a: byte)
      requires Wired() && slot < 2 && Linked(slot) && Active(HalfAt(slot))
      requires OwnerAt(slot).mode == UPDATE && OwnerAt(slot).reading == 0
      modifies `command, `polls, `wire_len, `wire_hi, `outstanding, `request_len, `payload, `payload_len, `count,
               `hist, owners, caches, packet, device
      ensures Wired() && Linked(slot) && HalfAt(1 - slot) == old(HalfAt(1 - slot))
      ensures OnlyWrote(old(Acc()), Acc(), HalfAt(slot).sid, old(OwnerAt(slot)).handle)
      ensures a == SUCCESS || a == IO_ERROR
      ensures var o, n := old(OwnerAt(slot)), OwnerAt(slot);
              && (a == SUCCESS ==> n == o.(offset := 0, len := 0, pos := 0, eof := 0, fault := 0, committed := 1,
                                           reading := 1) && o.fault == 0)
              && (a != SUCCESS ==> n == o.(offset := n.offset, len := n.len, pos := n.pos, fault := 1)
                                   && o.committed == 0)
              && (a != SUCCESS ==> o.fault != 0 || Impeded(old(device.Gauge()), device.Gauge()))
              && (o.fault != 0 || o.committed != 0 ==> hist == old(hist))
      ensures device.transactions + Drain() <= old(device.transactions) + old(Drain())
                + (POLLS as nat + 2) * (old(OwnerAt(slot)).len as nat + 1)
                                               + (if a == SUCCESS then 0 else POLLS as nat + 1)
    {
      hide Coupled, Effect, Evolves, Parse, Seal, Accepted, SioAdapter.Ok, OnlyWrote, U32, U16, Impeded;
      Bounded(HalfAt(slot), HalfAt(1 - slot), device.dev, device.service, hist);
      ZeroOffset();
      a := FinishWrite();
      if a != SUCCESS {
        return IO_ERROR;
      }
      ghost var me := HalfAt(slot);
      owners[slot] := owners[slot].(offset := (0, 0, 0, 0), len := 0, pos := 0, eof := 0,
                                    reading := owners[slot].reading + 1);
      ReadingStarts(me, HalfAt(1 - slot), device.dev, device.service, hist, HalfAt(slot));
    }

    /** `do_get` up to `@read`: who may read, and the POST that must commit first. */
    method GetReady() returns (a: byte)
      requires Wired() && slot < 2 && Linked(slot) && Active(HalfAt(slot))
      modifies `command, `polls, `wire_len, `wire_hi, `outstanding, `request_len, `payload, `payload_len, `count,
               `hist, owners, caches, packet, device
      ensures Wired() && Linked(slot) && HalfAt(1 - slot) == old(HalfAt(1 - slot))
      ensures OnlyWrote(old(Acc()), Acc(), HalfAt(slot).sid, old(OwnerAt(slot)).handle)
      ensures a == SUCCESS || a == UNSUPPORTED || a == IO_ERROR
      ensures var o, n := old(OwnerAt(slot)), OwnerAt(slot);
              && n.own == o.own && n.mode == o.mode && n.handle == o.handle
              && (a == UNSUPPORTED <==> o.mode == OUTPUT) && (a == UNSUPPORTED || Reader(o) ==> n == o)
              && (Reader(o) ==> a == SUCCESS) && (a == SUCCESS ==> Reader(n)) && (a == IO_ERROR ==> n.fault == 1)
              && (a == IO_ERROR ==> o.fault != 0 || Impeded(old(device.Gauge()), device.Gauge()))
              && (a == SUCCESS && !Reader(o) ==>
                    n == o.(offset := 0, len := 0, pos := 0, eof := 0, fault := 0, committed := 1, reading := 1))
              && (o.fault != 0 || o.committed != 0 ==>
                    n.fault == o.fault && n.committed == o.committed && hist == old(hist))
      ensures device.transactions + Drain() <= old(device.transactions) + old(Drain())
                + (POLLS as nat + 2) * (old(OwnerAt(slot)).len as nat + 1)
                                               + (if a == IO_ERROR then POLLS as nat + 1 else 0)
    {
      hide Coupled, SioAdapter.Ok, U32, U16, OnlyWrote, Impeded, Quiet;
      Bounded(HalfAt(slot), HalfAt(1 - slot), device.dev, device.service, hist);
      QuietSame(device.Gauge());
      QuietOnlyWrote(hist, device.Gauge(), device.Gauge(), HalfAt(slot).sid, OwnerAt(slot).handle);
      if owners[slot].mode != INPUT {
        if owners[slot].mode != UPDATE {
          return UNSUPPORTED;
        }
        if owners[slot].reading == 0 {
          a := TurnAround();
          return;
        }
      }
      a := SUCCESS;
    }

    /** `@read` once reading is allowed: what the caller may conclude. */
    method ReadNext() returns (a: byte)
      requires Wired() && slot < 2 && Linked(slot) && Active(HalfAt(slot)) && Reader(OwnerAt(slot))
      modifies `command, `polls, `wire_len, `wire_hi, `outstanding, `request_len, `payload, `payload_len, `count,
               `caller_a, `hist, owners, caches, packet, device
      ensures Wired() && Linked(slot) && Rested(slot) && HalfAt(1 - slot) == old(HalfAt(1 - slot))
      ensures var o, n, h := old(OwnerAt(slot)), OwnerAt(slot), HistOf(old(hist), HalfAt(slot).sid);
              && n == o.(offset := n.offset, len := n.len, pos := n.pos, eof := n.eof)
              && (a == SUCCESS || a == END_OF_FILE || a == IO_ERROR)
              && (o.pos < o.len ==> a == SUCCESS)
              && (o.pos >= o.len && o.eof != 0 ==> a == END_OF_FILE)
              && (a == END_OF_FILE ==> n.pos >= n.len && (n.eof == 1 || n.len == 0))
              && (a == END_OF_FILE ==> EndsExactly(n, device.service, hist, HalfAt(slot).sid))
              && (a == END_OF_FILE && o.eof == 0 ==>
                    device.trace == old(device.trace) + [Read(o.handle, o.offset, 128)] && Fulfilled(device.Gauge()))
              && (a == IO_ERROR ==> Impeded(old(device.Gauge()), device.Gauge()))
              && (a != SUCCESS ==> hist == old(hist))
              && (a == SUCCESS ==>
                    hist == old(hist)[HalfAt(slot).sid := h.(delivered := h.delivered + [caller_a])])
              && (a != SUCCESS ==> caller_a == old(caller_a))
      ensures Quiet(old(device.Gauge()), device.Gauge())
      ensures device.transactions + Drain() <= old(device.transactions) + old(Drain()) + POLLS + 2
                                               + (if a == IO_ERROR then POLLS as nat + 1 else 0)
    {
      hide Coupled, SioAdapter.Ok, U32, U16, HistOf, Exhausted, Quiet, Impeded, Fulfilled;
      Bounded(HalfAt(slot), HalfAt(1 - slot), device.dev, device.service, hist);
      a := ReadByte();
      Bounded(HalfAt(slot), HalfAt(1 - slot), device.dev, device.service, hist);
      AllDelivered(HalfAt(slot), HalfAt(1 - slot), device.dev, device.service, hist);
    }

    /** `read` with its part of the account, which began at a0. */
    method ReadOn(ghost a0: Account) returns (a: byte)
      requires Wired() && slot < 2 && Linked(slot) && Active(HalfAt(slot)) && Reader(OwnerAt(slot))
      requires OnlyWrote(a0, Acc(), HalfAt(slot).sid, OwnerAt(slot).handle)
      modifies `command, `polls, `wire_len, `wire_hi, `outstanding, `request_len, `payload, `payload_len, `count,
               `caller_a, `hist, owners, caches, packet, device
      ensures Wired() && Linked(slot) && Rested(slot) && HalfAt(1 - slot) == old(HalfAt(1 - slot))
      ensures var o, n := old(OwnerAt(slot)), OwnerAt(slot);
              && n == o.(offset := n.offset, len := n.len, pos := n.pos, eof := n.eof)
              && (a == SUCCESS || a == END_OF_FILE || a == IO_ERROR)
              && (o.pos < o.len ==> a == SUCCESS)
              && (o.pos >= o.len && o.eof != 0 ==> a == END_OF_FILE)
              && (a == END_OF_FILE ==> n.pos >= n.len && (n.eof == 1 || n.len == 0))
              && (a == END_OF_FILE ==> EndsExactly(n, device.service, hist, HalfAt(slot).sid))
              && (a == END_OF_FILE && o.eof == 0 ==>
                    device.trace == old(device.trace) + [Read(o.handle, o.offset, 128)] && Fulfilled(device.Gauge()))
              && (a == IO_ERROR ==> Impeded(a0.meter, device.Gauge()))
              && (a != SUCCESS ==> caller_a == old(caller_a))
              && Recorded(a0, Acc(), HalfAt(slot).sid, o.handle, [], if a == SUCCESS then [caller_a] else [])
      ensures HistOf(hist, HalfAt(slot).sid).writes == HistOf(old(hist), HalfAt(slot).sid).writes
      ensures a0.meter.sent <= old(device.sent)
      ensures device.transactions + Drain() <= old(device.transactions) + old(Drain()) + POLLS + 2
                                               + (if a == IO_ERROR then POLLS as nat + 1 else 0)
    {
      hide Coupled, SioAdapter.Ok, U32, U16, OnlyWrote, Recorded, HistOf, EndsExactly, Resident.Drain, Impeded,
           Resident.Linked, Fulfilled;
      ghost var a1 := Acc();
      a := ReadNext();
      ReadAccounted(a0, a1, device.Gauge(), HalfAt(slot).sid, OwnerAt(slot).handle, caller_a);
    }

    /** `do_get`. */
    method DoGet() returns (a: byte)
      requires Wired() && slot < 2 && Linked(slot) && Active(HalfAt(slot)) && Rested(slot)
      modifies `command, `polls, `wire_len, `wire_hi, `outstanding, `request_len, `payload, `payload_len, `count,
               `caller_a, `hist, owners, caches, packet, device
      ensures Wired() && Linked(slot) && Rested(slot) && HalfAt(1 - slot) == old(HalfAt(1 - slot))
      ensures Recorded(old(Acc()), Acc(), HalfAt(slot).sid, old(OwnerAt(slot)).handle, [],
                       if a == SUCCESS then [caller_a] else [])
      ensures a != SUCCESS ==> caller_a == old(caller_a)
      ensures var o, n := old(OwnerAt(slot)), OwnerAt(slot);
              && n.own == o.own && n.mode == o.mode && n.handle == o.handle
              && (a == UNSUPPORTED <==> o.mode == OUTPUT) && (a == UNSUPPORTED ==> n == o)
              && (a == SUCCESS || a == UNSUPPORTED || a == END_OF_FILE || a == IO_ERROR)
              && (a == SUCCESS || a == END_OF_FILE ==> Reader(n))
              && (a == IO_ERROR ==> o.fault != 0 || Impeded(old(device.Gauge()), device.Gauge()))
              && (Reader(o) && o.pos < o.len ==> a == SUCCESS)
              && (Reader(o) && o.pos >= o.len && o.eof != 0 ==> a == END_OF_FILE)
              && (a == END_OF_FILE ==> n.pos >= n.len && (n.eof == 1 || n.len == 0))
              && (a == END_OF_FILE ==> EndsExactly(n, device.service, hist, HalfAt(slot).sid))
              && (a == END_OF_FILE && o.eof == 0 ==>
                    && Asks(old(device.trace), device.trace, Read(o.handle, if Reader(o) then o.offset else 0, 128))
                    && Fulfilled(device.Gauge()))
              && (o.fault != 0 || o.committed != 0 ==>
                    && n.fault == o.fault && n.committed == o.committed
                    && HistOf(hist, HalfAt(slot).sid).writes == HistOf(old(hist), HalfAt(slot).sid).writes)
      ensures device.transactions <= old(device.transactions) + old(Drain())
                                     + (POLLS as nat + 2) * (old(OwnerAt(slot)).len as nat + 2) + POLLS + 1
    {
      hide Coupled, SioAdapter.Ok, U32, U16, OnlyWrote, Recorded, HistOf, EndsExactly, Resident.Drain, Impeded,
           Later, Quiet, Resident.Linked, Fulfilled;
      ghost var a0 := Acc();
      TraceIsSent();
      a := GetReady();
      WroteIsRecorded(a0, Acc(), HalfAt(slot).sid, OwnerAt(slot).handle);
      if a != SUCCESS {
        return;
      }
      TraceIsSent();
      a := ReadOn(a0);
    }

    /** The account of a commit that may have come first, and then of a READ. */
    lemma ReadAccounted(a0: Account, a1: Account, m2: Meter, sid: nat, handle: nat, b: byte)
      requires OnlyWrote(a0, a1, sid, handle) && Quiet(a1.meter, m2)
      ensures Recorded(a0, Account(a1.hist, m2), sid, handle, [], [])
      ensures var h := HistOf(a1.hist, sid);
              Recorded(a0, Account(a1.hist[sid := h.(delivered := h.delivered + [b])], m2), sid, handle, [], [b])
      ensures var h := HistOf(a1.hist, sid);
              HistOf(a1.hist[sid := h.(delivered := h.delivered + [b])], sid).writes == h.writes
      ensures a0.meter.sent <= a1.meter.sent
      ensures Impeded(a1.meter, m2) ==> Impeded(a0.meter, m2)
    {
      hide Impeded, Recorded;
      BothHalves(a0, a1, m2, sid, handle);
      GetIsRecorded(a0, a1, sid, handle, b, m2);
      HistAfter(a1.hist, sid, HistOf(a1.hist, sid).(delivered := HistOf(a1.hist, sid).delivered + [b]), sid);
    }

    lemma AskedLast(trace0: seq<Request>, trace1: seq<Request>, trace2: seq<Request>, r: Request)
      ensures |trace0| <= |trace1| && trace2 == trace1 + [r] ==> Asks(trace0, trace2, r)
    {
    }

    lemma TraceIsSent()
      requires device.Ok()
      ensures |device.trace| == device.sent
    {
    }

    /** The exchange of a CLOSE, its owner as good as gone. */
    method ExchangeClose() returns (carry: bool)
      requires Wired() && slot < 2 && Linked(slot) && Active(HalfAt(slot)) && outstanding == 0
      requires command == CMD_CLOSE && Begun(packet[..], CMD_CLOSE) && 9 <= request_len <= PACKET_MAX
      requires Parse(Seal(packet[..], request_len)) == Asked(CMD_CLOSE)
      modifies `wire_len, `wire_hi, `outstanding, `polls, `payload, `payload_len, packet, device
      ensures Wired()
      ensures Coupled(WithOwner(HalfAt(slot), OwnerAt(slot).(own := 0xff)), HalfAt(1 - slot), device.dev,
                      device.service, hist)
      ensures device.trace == old(device.trace) + [Asked(CMD_CLOSE)]
      ensures Quiet(old(device.Gauge()), device.Gauge())
      ensures carry ==> Impeded(old(device.Gauge()), device.Gauge())
      ensures !carry ==> Fulfilled(device.Gauge())
      ensures device.transactions <= old(device.transactions) + POLLS + 2
    {
      hide Coupled, Effect, Evolves, Parse, Seal, Accepted, SioAdapter.Ok, U32, U16, PayloadAt, Later, Impeded,
           Believed;
      ghost var me, other, s, m := HalfAt(slot), HalfAt(1 - slot), device.service, device.Gauge();
      ghost var req := Seal(packet[..], request_len);
      QuietSame(m);
      carry := Exchange();
      AskedQuietly(m, m, device.Gauge(), req, packet[..wire_len], carry);
      if !carry {
        BelievedReply(req, packet[..wire_len]);
      }
      CloseKeepsCoupled(me, other, s, hist, device.sent, req, device.dev, device.service);
    }

    /** The remote half of `do_close`. */
    method CloseRemote() returns (carry: bool)
      requires Wired() && slot < 2 && Linked(slot) && Active(HalfAt(slot))
      modifies `command, `polls, `wire_len, `wire_hi, `outstanding, `request_len, `payload, `payload_len, packet, device
      ensures Wired()
      ensures Coupled(WithOwner(HalfAt(slot), OwnerAt(slot).(own := 0xff)), HalfAt(1 - slot), device.dev,
                      device.service, hist)
      ensures Quiet(old(device.Gauge()), device.Gauge())
      ensures carry ==> Impeded(old(device.Gauge()), device.Gauge())
      ensures (carry && device.trace == old(device.trace)) || device.trace == old(device.trace) + [Asked(CMD_CLOSE)]
      ensures !carry ==> Fulfilled(device.Gauge())
      ensures device.transactions <= old(device.transactions) + old(Drain()) + POLLS + 2
    {
      hide Coupled, Effect, Evolves, Parse, Seal, Accepted, SioAdapter.Ok, U32, U16, PayloadAt, Later, Impeded,
           Believed, Begun, Fulfilled;
      ghost var me, other, m := HalfAt(slot), HalfAt(1 - slot), device.Gauge();
      carry := ReadyAsk(CMD_CLOSE);
      ghost var m1 := device.Gauge();
      if carry {
        Released(me, other, device.dev, device.service, hist, WithOwner(me, me.o.(own := 0xff)));
        return;
      }
      carry := ExchangeClose();
      LaterTransitive(m, m1, device.Gauge());
      ImpededWithin(m, m1, device.Gauge());
    }

    /** `finish_write` where there is output to finish. */
    method FinishOutput() returns (a: byte)
      requires Wired() && slot < 2 && Linked(slot) && Active(HalfAt(slot))
      modifies `command, `polls, `wire_len, `wire_hi, `outstanding, `request_len, `payload, `payload_len, `count,
               `hist, owners, caches, packet, device
      ensures Wired() && Linked(slot) && HalfAt(1 - slot) == old(HalfAt(1 - slot))
      ensures OnlyWrote(old(Acc()), Acc(), HalfAt(slot).sid, old(OwnerAt(slot)).handle)
      ensures var o, n := old(OwnerAt(slot)), OwnerAt(slot);
              && n == o.(offset := n.offset, len := n.len, pos := n.pos, fault := n.fault, committed := n.committed)
              && (a == SUCCESS || a == IO_ERROR)
              && (o.mode == INPUT ==> a == SUCCESS && n == o)
              && (a == SUCCESS ==> n.fault == 0)
              && (a == SUCCESS && o.mode != INPUT ==>
                    n.committed == 1 && Durable(device.service, hist, HalfAt(slot).sid))
              && (a == IO_ERROR ==> n.fault == 1 && n.committed == o.committed && o.mode != INPUT)
              && (o.mode != INPUT && o.fault != 0 ==> a == IO_ERROR)
              && (a == IO_ERROR ==> o.fault != 0 || Impeded(old(device.Gauge()), device.Gauge()))
              && (o.fault != 0 || o.committed != 0 ==> n == o && Acc() == old(Acc()))
      ensures device.transactions + Drain() <= old(device.transactions) + old(Drain())
                                               + (POLLS as nat + 2) * (old(OwnerAt(slot)).len as nat + 1)
                                               + (if a == SUCCESS then 0 else POLLS as nat + 1)
    {
      hide Coupled, Effect, Evolves, Parse, Seal, Accepted, SioAdapter.Ok, U32, U16, OnlyWrote, Durable, Impeded,
           Quiet;
      QuietSame(device.Gauge());
      QuietOnlyWrote(hist, device.Gauge(), device.Gauge(), HalfAt(slot).sid, OwnerAt(slot).handle);
      Bounded(HalfAt(slot), HalfAt(1 - slot), device.dev, device.service, hist);
      if owners[slot].mode == INPUT {
        return SUCCESS;
      }
      a := FinishWrite();
      if a == SUCCESS {
        CommittedIsDurable(HalfAt(slot), HalfAt(1 - slot), device.dev, device.service, hist);
      }
    }

    /** `@info`: the INFO, and what EOF and the cache then say. */
    method Inform(ghost a0: Account, ghost trace0: seq<Request>) returns (a: byte)
      requires Wired() && slot < 2 && Linked(slot) && Active(HalfAt(slot))
      requires OnlyWrote(a0, Acc(), HalfAt(slot).sid, OwnerAt(slot).handle) && |trace0| == a0.meter.sent
      modifies `command, `polls, `wire_len, `wire_hi, `outstanding, `request_len, `payload, `payload_len, packet, device
      ensures Wired() && Linked(slot)
      ensures Recorded(a0, Acc(), HalfAt(slot).sid, OwnerAt(slot).handle, [], [])
      ensures var n := OwnerAt(slot);
              && (a == SUCCESS || a == END_OF_FILE || a == IO_ERROR)
              && (a != IO_ERROR ==> (a == END_OF_FILE <==> n.mode != OUTPUT && n.eof != 0 && n.pos >= n.len))
              && (a != IO_ERROR ==> Asks(trace0, device.trace, Info(n.handle)) && Fulfilled(device.Gauge()))
              && (a == END_OF_FILE ==> Exhausted(device.service, hist, HalfAt(slot).sid))
              && (a == IO_ERROR ==> Impeded(a0.meter, device.Gauge()))
      ensures device.transactions + Drain() <= old(device.transactions) + old(Drain()) + POLLS + 2
                                               + (if a == IO_ERROR then POLLS as nat + 1 else 0)
    {
      hide Coupled, Effect, Evolves, Parse, Seal, Accepted, SioAdapter.Ok, U32, U16, OnlyWrote, Recorded, Impeded,
           Later, Exhausted, Fulfilled;
      ghost var a1, sid, handle := Acc(), HalfAt(slot).sid, OwnerAt(slot).handle;
      OnlyWroteLater(a0, a1, sid, handle);
      LaterCounts(a0.meter, a1.meter);
      TraceIsSent();
      var carry := Ask(CMD_INFO);
      QuietOnlyWrote(hist, a1.meter, device.Gauge(), sid, handle);
      OnlyWroteTransitive(a0, a1, Acc(), sid, handle);
      WroteIsRecorded(a0, Acc(), sid, handle);
      Bounded(HalfAt(slot), HalfAt(1 - slot), device.dev, device.service, hist);
      AllDelivered(HalfAt(slot), HalfAt(1 - slot), device.dev, device.service, hist);
      if carry {
        ImpededEarlier(a0.meter, a1.meter, device.Gauge());
        return IO_ERROR;
      }
      if owners[slot].mode == OUTPUT || owners[slot].eof == 0 {
        return SUCCESS;
      }
      a := if owners[slot].pos >= owners[slot].len then END_OF_FILE else SUCCESS;
    }

    /** `do_status`: an output owner commits first; then INFO. */
    method DoStatus() returns (a: byte)
      requires Wired() && slot < 2 && Linked(slot) && Active(HalfAt(slot)) && Rested(slot)
      modifies `command, `polls, `wire_len, `wire_hi, `outstanding, `request_len, `payload, `payload_len, `count,
               `hist, owners, caches, packet, device
      ensures Wired() && Linked(slot) && Rested(slot) && HalfAt(1 - slot) == old(HalfAt(1 - slot))
      ensures Recorded(old(Acc()), Acc(), HalfAt(slot).sid, old(OwnerAt(slot)).handle, [], [])
      ensures var o, n := old(OwnerAt(slot)), OwnerAt(slot);
              && n == o.(offset := n.offset, len := n.len, pos := n.pos, fault := n.fault, committed := n.committed)
              && (a == SUCCESS || a == END_OF_FILE || a == IO_ERROR)
              && (o.mode == INPUT ==> n == o)
              && (a != IO_ERROR ==> (a == END_OF_FILE <==> n.mode != OUTPUT && n.eof != 0 && n.pos >= n.len))
              && (a != IO_ERROR ==> n.fault == 0 && (n.mode != INPUT ==> n.committed == 1))
              && (a != IO_ERROR ==> Asks(old(device.trace), device.trace, Info(n.handle)) && Fulfilled(device.Gauge()))
              && (a == END_OF_FILE ==> Exhausted(device.service, hist, HalfAt(slot).sid))
              && (a == IO_ERROR ==> o.fault != 0 || Impeded(old(device.Gauge()), device.Gauge()))
              && (o.fault != 0 || o.committed != 0 ==> n == o && hist == old(hist))
              && (n.fault == 0 || n.committed == o.committed)
      ensures device.transactions <= old(device.transactions) + old(Drain())
                                     + (POLLS as nat + 2) * (old(OwnerAt(slot)).len as nat + 2) + POLLS + 1
    {
      hide Coupled, Effect, Evolves, Parse, Seal, Accepted, SioAdapter.Ok, U32, U16, OnlyWrote, Recorded, Impeded,
           Later, Exhausted, Durable, Asks, Quiet, Fulfilled;
      ghost var a0, sid, handle, trace0 := Acc(), HalfAt(slot).sid, OwnerAt(slot).handle, device.trace;
      TraceIsSent();
      a := FinishOutput();
      WroteIsRecorded(a0, Acc(), sid, handle);
      if a != SUCCESS {
        return;
      }
      Resting(HalfAt(slot), HalfAt(1 - slot), device.dev, device.service, hist);
      a := Inform(a0, trace0);
    }

    /** Nothing CLOSE sends takes back what is durable. */
    lemma StillDurable(me: Half, other: Half, d: Dev, a: Account, m: Meter, sid: nat)
      requires Quiet(a.meter, m) && Coupled(me, other, d, m.service, a.hist)
      ensures Durable(a.meter.service, a.hist, sid) ==> Durable(m.service, a.hist, sid)
    {
      hide Coupled, Grows;
      if Durable(a.meter.service, a.hist, sid) {
        DurableStays(me, other, d, a.meter.service, a.hist, m.service, sid);
      }
    }

    /** Output is finished and the CLOSE is sent, with the owner still there. */
    method CloseBoth() returns (a: byte)
      requires Wired() && slot < 2 && Linked(slot) && Active(HalfAt(slot))
      modifies `command, `polls, `wire_len, `wire_hi, `outstanding, `request_len, `payload, `payload_len, `count,
               `hist, owners, caches, packet, device
      ensures Wired() && HalfAt(1 - slot) == old(HalfAt(1 - slot)) && HalfAt(slot).sid == old(HalfAt(slot).sid)
      ensures Coupled(WithOwner(HalfAt(slot), OwnerAt(slot).(own := 0xff)), HalfAt(1 - slot), device.dev,
                      device.service, hist)
      ensures Recorded(old(Acc()), Acc(), HalfAt(slot).sid, old(OwnerAt(slot)).handle, [], [])
      ensures var o := old(OwnerAt(slot));
              && (a == SUCCESS || a == IO_ERROR)
              && (a == SUCCESS && o.mode != INPUT ==> Durable(device.service, hist, HalfAt(slot).sid))
              && (a == SUCCESS ==> Asks(old(device.trace), device.trace, Close(o.handle)) && Fulfilled(device.Gauge()))
              && (Asks(old(device.trace), device.trace, Close(o.handle))
                  || Impeded(old(device.Gauge()), device.Gauge()))
              && (o.mode != INPUT && o.fault != 0 ==> a == IO_ERROR)
              && (a == IO_ERROR ==> o.fault != 0 || Impeded(old(device.Gauge()), device.Gauge()))
              && (o.fault != 0 || o.committed != 0 ==> hist == old(hist))
      ensures device.transactions <= old(device.transactions) + (POLLS as nat + 2) * (old(OwnerAt(slot)).len as nat + 2)
                + 122
    {
      hide Coupled, Effect, Evolves, Parse, Seal, Accepted, SioAdapter.Ok, U32, U16, OnlyWrote, Recorded, Durable,
           Impeded, Quiet, Grows, Asks, HistOf, Fulfilled;
      ghost var a0, handle, trace0 := Acc(), OwnerAt(slot).handle, device.trace;
      TraceIsSent();
      a := FinishOutput();
      ghost var sid, a1, trace1 := HalfAt(slot).sid, Acc(), device.trace;
      TraceIsSent();
      var carry := CloseRemote();
      AskedLast(trace0, trace1, device.trace, Close(handle));
      BothHalves(a0, a1, device.Gauge(), sid, handle);
      StillDurable(WithOwner(HalfAt(slot), OwnerAt(slot).(own := 0xff)), HalfAt(1 - slot), device.dev, a1,
                   device.Gauge(), sid);
      if carry {
        a := IO_ERROR;
      }
    }

    /** `do_close`: whatever happens on the wire, local ownership ends. */
    method DoClose() returns (a: byte)
      requires Wired() && slot < 2 && Linked(slot) && Active(HalfAt(slot))
      modifies `command, `polls, `wire_len, `wire_hi, `outstanding, `request_len, `payload, `payload_len, `count,
               `hist, owners, caches, packet, device
      ensures Wired() && Linked(slot) && !Active(HalfAt(slot)) && HalfAt(1 - slot) == old(HalfAt(1 - slot))
      ensures Recorded(old(Acc()), Acc(), HalfAt(slot).sid, old(OwnerAt(slot)).handle, [], [])
      ensures HalfAt(slot).sid == old(HalfAt(slot).sid)
      ensures var o := old(OwnerAt(slot));
              && (a == SUCCESS || a == IO_ERROR)
              && (a == SUCCESS && o.mode != INPUT ==> Durable(device.service, hist, HalfAt(slot).sid))
              && (a == SUCCESS ==> Asks(old(device.trace), device.trace, Close(o.handle)) && Fulfilled(device.Gauge()))
              && (Asks(old(device.trace), device.trace, Close(o.handle))
                  || Impeded(old(device.Gauge()), device.Gauge()))
              && (o.mode != INPUT && o.fault != 0 ==> a == IO_ERROR)
              && (a == IO_ERROR ==> o.fault != 0 || Impeded(old(device.Gauge()), device.Gauge()))
              && (o.fault != 0 || o.committed != 0 ==> hist == old(hist))
      ensures device.transactions <= old(device.transactions) + (POLLS as nat + 2) * (old(OwnerAt(slot)).len as nat + 2)
                + 122
    {
      hide Coupled, SioAdapter.Ok, U32, U16, Recorded, Durable, Impeded, Asks, Fulfilled;
      a := CloseBoth();
      ghost var gone := WithOwner(HalfAt(slot), OwnerAt(slot).(own := 0xff));
      owners[slot] := owners[slot].(own := 0xff);
      assert HalfAt(slot) == gone;
    }

    /** The account of both halves of `do_close`; an excuse of either is one for
        the whole. */
    lemma BothHalves(a0: Account, a1: Account, m2: Meter, sid: nat, handle: nat)
      requires OnlyWrote(a0, a1, sid, handle) && Quiet(a1.meter, m2)
      ensures Recorded(a0, Account(a1.hist, m2), sid, handle, [], [])
      ensures a0.meter.sent <= a1.meter.sent && Grows(a1.meter.service, m2.service)
      ensures Impeded(a0.meter, a1.meter) || Impeded(a1.meter, m2) ==> Impeded(a0.meter, m2)
    {
      hide Later, Impeded, OnlyWrote, Recorded;
      OnlyWroteLater(a0, a1, sid, handle);
      LaterCounts(a0.meter, a1.meter);
      LaterCounts(a1.meter, m2);
      QuietOnlyWrote(a1.hist, a1.meter, m2, sid, handle);
      OnlyWroteTransitive(a0, a1, Account(a1.hist, m2), sid, handle);
      WroteIsRecorded(a0, Account(a1.hist, m2), sid, handle);
      if Impeded(a0.meter, a1.meter) {
        ImpededLater(a0.meter, a1.meter, m2);
      } else if Impeded(a1.meter, m2) {
        ImpededEarlier(a0.meter, a1.meter, m2);
      }
    }

    /** The `@uri` loop: copy the name into the packet, or find it bad. */
    method CopyUri(name: nat -> byte) returns (bad: bool, x: nat)
      requires Shape()
      modifies packet
      ensures x <= URI_MAX && forall i :: 0 <= i < 512 && !(11 <= i < 11 + x) ==> packet[i] == old(packet[i])
      ensures !bad ==> 1 <= x && EndsName(name(3 + x))
      ensures forall i :: 11 <= i < 11 + x ==> packet[i] == name(i - 8)
      ensures forall i :: 3 <= i < 3 + x ==> !EndsName(name(i))
      ensures bad ==> (x == 0 && EndsName(name(3))) || (x == URI_MAX && !EndsName(name(3 + x)))
    {
      var y := 2;
      x := 0;
      while true
        invariant x <= URI_MAX && y == 2 + x
        invariant forall i :: 0 <= i < 512 && !(11 <= i < 11 + x) ==> packet[i] == old(packet[i])
        invariant forall i :: 11 <= i < 11 + x ==> packet[i] == name(i - 8)
        invariant forall i :: 3 <= i < 3 + x ==> !EndsName(name(i))
        decreases URI_MAX - x
      {
        y := y + 1;
        var c := name(y);
        if c == 0 || c == 0x9b {
          break;
        }
        if x == URI_MAX {
          return true, x;
        }
        packet[11 + x] := c;
        x := x + 1;
      }
      bad := x == 0;
    }

    /** `do_open` from the buffer address to the end of the name. */
    method ReadName(iocb: Iocb) returns (bad: bool, x: nat)
      requires Shape()
      modifies `ptr, packet
      ensures x <= URI_MAX && forall i :: 0 <= i < 512 && !(11 <= i < 11 + x) ==> packet[i] == old(packet[i])
      ensures !bad ==> iocb.buffer != (0, 0) && NamesUri(iocb.name, packet[11..11 + x])
      ensures bad ==> iocb.buffer == (0, 0) || forall u :: !NamesUri(iocb.name, u)
    {
      ptr := iocb.buffer;
      if ptr.0 == 0 && ptr.1 == 0 {
        return true, 0;
      }
      if iocb.name(0) != 0x4e || iocb.name(1) != 0x31 || iocb.name(2) != 0x3a {
        return true, 0;
      }
      bad, x := CopyUri(iocb.name);
      if bad {
        NoUri(iocb.name, x);
      } else {
        ghost var uri := packet[11..11 + x];
        forall i | 0 <= i < |uri|
          ensures uri[i] == iocb.name(3 + i) && !EndsName(iocb.name(3 + i))
        {
          assert packet[11 + i] == iocb.name(11 + i - 8);
        }
      }
    }

    /** The method, flags and length of an OPEN whose name is in place. */
    method FillOpen(mode: byte, x: nat)
      requires Shape() && 1 <= x <= URI_MAX && Begun(packet[..], CMD_OPEN)
      requires forall i :: 7 <= i < PACKET_MAX && !(11 <= i < 11 + x) ==> packet[i] == 0
      modifies `request_len, packet
      ensures Begun(packet[..], CMD_OPEN) && 9 <= request_len <= PACKET_MAX
      ensures Parse(Seal(packet[..], request_len)) == Open(MethodOf(mode), FlagsOf(mode), old(packet[11..11 + x]))
    {
      ghost var uri := packet[11..11 + x];
      packet[9] := x;
      request_len := x + 19;
      if mode == INPUT {
        packet[7] := 1;
      } else {
        packet[8] := 4;
        packet[7] := if mode == OUTPUT then 3 else 2;
      }
      SealsOpen(packet[..], x);
      assert packet[..][11..11 + x] == uri;
    }

    method PrepareOpen(mode: byte, iocb: Iocb) returns (a: byte, ghost uri: seq<byte>)
      requires Shape() && Begun(packet[..], CMD_OPEN)
      requires forall i :: 7 <= i < PACKET_MAX ==> packet[i] == 0
      modifies `ptr, `request_len, packet
      ensures a == SUCCESS || a == BAD_NAME
      ensures a == SUCCESS ==>
                && iocb.buffer != (0, 0) && NamesUri(iocb.name, uri)
                && Begun(packet[..], CMD_OPEN) && 9 <= request_len <= PACKET_MAX
                && Parse(Seal(packet[..], request_len)) == Open(MethodOf(mode), FlagsOf(mode), uri)
      ensures a == BAD_NAME ==> iocb.buffer == (0, 0) || forall u :: !NamesUri(iocb.name, u)
    {
      uri := [];
      var bad, x := ReadName(iocb);
      if bad {
        return BAD_NAME, uri;
      }
      uri := packet[11..11 + x];
      FillOpen(mode, x);
      a := SUCCESS;
    }

    /** The handle of an OPEN reply; $FFFF is no handle. */
    method TakeHandle() returns (carry: bool, handle: (byte, byte))
      requires Shape() && wire_len <= PACKET_MAX && Accepted(packet[..wire_len], CMD_OPEN)
      requires payload == PayloadAt(packet[..wire_len]) && payload_len == wire_len - payload
      ensures carry <==> !GrantsOpen(packet[..wire_len])
      ensures !carry ==> handle == OpenHandle(packet[..wire_len])
    {
      handle := (0, 0);
      if payload_len < 7 {
        return true, handle;
      }
      handle := (packet[payload + 4], packet[payload + 5]);
      carry := handle.0 == 0xff && handle.1 == 0xff;
    }

    /** The exchange of an OPEN for a free slot. */
    method ExchangeOpen(ghost req: Request) returns (carry: bool, handle: (byte, byte))
      requires Wired() && slot < 2 && Linked(slot) && !Active(HalfAt(slot)) && outstanding == 0
      requires command == CMD_OPEN && Begun(packet[..], CMD_OPEN) && 9 <= request_len <= PACKET_MAX
      requires req.Open? && Parse(Seal(packet[..], request_len)) == req
      modifies `wire_len, `wire_hi, `outstanding, `polls, `payload, `payload_len, packet, device
      ensures Wired() && Linked(slot)
      ensures !carry ==> SessionOpened(HalfAt(slot), HalfAt(1 - slot), hist, req, handle, device.service)
                         && device.dev.Idle?
      ensures device.trace == old(device.trace) + [req]
      ensures Quiet(old(device.Gauge()), device.Gauge())
      ensures carry ==> Impeded(old(device.Gauge()), device.Gauge())
      ensures device.transactions <= old(device.transactions) + POLLS + 2
    {
      hide Coupled, Effect, Evolves, Parse, Accepted, SioAdapter.Ok, U32, U16, Later, Impeded, Believed, GrantsOpen;
      ghost var m := device.Gauge();
      ghost var me, other, s, frame := HalfAt(slot), HalfAt(1 - slot), device.service, Seal(packet[..], request_len);
      handle := (0, 0);
      QuietSame(m);
      carry := Exchange();
      AskedQuietly(m, m, device.Gauge(), frame, packet[..wire_len], carry);
      ExchangeKeepsCoupled(me, other, Idle, s, hist, device.sent, frame, device.dev, device.service);
      if carry {
        return;
      }
      ghost var reply := packet[..wire_len];
      carry, handle := TakeHandle();
      if !carry {
        GrantedIsOpened(me, other, s, hist, frame, reply, device.service);
      }
    }

    /** The end of `do_open`: clear the record, then OWN, MODE and HANDLE. */
    method TakeSlot(mode: byte, handle: (byte, byte), ghost req: Request)
      requires Wired() && slot < 2 && !Active(HalfAt(slot)) && device.dev.Idle?
      requires req.Open? && SessionOpened(HalfAt(slot), HalfAt(1 - slot), hist, req, handle, device.service)
      requires caller_x <= 0x70 && (Active(HalfAt(1 - slot)) ==> OwnerAt(1 - slot).own != caller_x)
      requires mode == INPUT || mode == OUTPUT || mode == UPDATE
      modifies `sid0, `sid1, owners
      ensures Linked(slot) && HalfAt(1 - slot) == old(HalfAt(1 - slot))
      ensures OwnerAt(slot) == Owner(caller_x, mode, U16(handle.0, handle.1), 0, 0, 0, 0, 0, 0, 0)
      ensures HistOf(hist, HalfAt(slot).sid) == NO_HIST && HalfAt(slot).sid < |device.service.log|
      ensures var n := device.service.log[HalfAt(slot).sid];
              n.method_ == req.method_ && n.flags == req.flags && n.uri == req.uri && n.taken == [] && n.commits == 0
    {
      hide Coupled, Effect, Evolves, Parse, Accepted, SioAdapter.Ok, U32, U16, SessionOpened;
      ghost var me, other := HalfAt(slot), HalfAt(1 - slot);
      ZeroOffset();
      owners[slot] := CLEARED;
      owners[slot] := owners[slot].(own := caller_x);
      owners[slot] := owners[slot].(mode := mode);
      owners[slot] := owners[slot].(handle := handle);
      OpenedIsLogged(me, other, hist, req, handle, device.service);
      if slot == 0 {
        sid0 := |device.service.log| - 1;
      } else {
        sid1 := |device.service.log| - 1;
      }
      Opened(me, other, hist, req, handle, device.service, HalfAt(slot));
    }

    /** `do_open` up to its exchange. */
    method ReadyOpen(mode: byte, iocb: Iocb) returns (a: byte, ghost uri: seq<byte>)
      requires Wired() && slot < 2 && Linked(slot)
      modifies `command, `polls, `wire_len, `wire_hi, `outstanding, `request_len, `ptr, packet, device
      ensures Wired() && Linked(slot)
      ensures a == SUCCESS || a == BAD_NAME || a == IO_ERROR
      ensures a == BAD_NAME ==> iocb.buffer == (0, 0) || forall u :: !NamesUri(iocb.name, u)
      ensures a == SUCCESS ==>
                && outstanding == 0 && command == CMD_OPEN && iocb.buffer != (0, 0) && NamesUri(iocb.name, uri)
                && Begun(packet[..], CMD_OPEN) && 9 <= request_len <= PACKET_MAX
                && Parse(Seal(packet[..], request_len)) == Open(MethodOf(mode), FlagsOf(mode), uri)
      ensures Quiet(old(device.Gauge()), device.Gauge())
      ensures a == IO_ERROR ==> Impeded(old(device.Gauge()), device.Gauge())
      ensures device.transactions <= old(device.transactions) + old(Drain())
    {
      hide Coupled, Effect, Evolves, Parse, Seal, SioAdapter.Ok, U32, U16, NamesUri, Quiet, Impeded;
      ghost var me, other := HalfAt(slot), HalfAt(1 - slot);
      uri := [];
      var carry := BeginPacket(CMD_OPEN);
      EvolvingKeepsCoupled(me, other, old(device.dev), old(device.service), device.dev, device.service, hist);
      if carry {
        return IO_ERROR, uri;
      }
      a, uri := PrepareOpen(mode, iocb);
    }

    /** `do_open` once a free slot is chosen. */
    method OpenSlot(mode: byte, iocb: Iocb) returns (a: byte)
      requires Wired() && slot < 2 && Linked(slot) && !Active(HalfAt(slot))
      requires caller_x <= 0x70 && (Active(HalfAt(1 - slot)) ==> OwnerAt(1 - slot).own != caller_x)
      requires mode == INPUT || mode == OUTPUT || mode == UPDATE
      modifies `command, `polls, `wire_len, `wire_hi, `outstanding, `request_len, `payload, `payload_len, `ptr,
               `sid0, `sid1, packet, owners, device
      ensures Wired() && Linked(slot) && HalfAt(1 - slot) == old(HalfAt(1 - slot))
      ensures a == SUCCESS || a == BAD_NAME || a == IO_ERROR
      ensures a == BAD_NAME ==> iocb.buffer == (0, 0) || forall u :: !NamesUri(iocb.name, u)
      ensures a != SUCCESS ==> HalfAt(slot) == old(HalfAt(slot))
      ensures a == SUCCESS ==>
                && OwnerAt(slot) == Owner(caller_x, mode, OwnerAt(slot).handle, 0, 0, 0, 0, 0, 0, 0)
                && HistOf(hist, HalfAt(slot).sid) == NO_HIST && HalfAt(slot).sid < |device.service.log|
                && var n := device.service.log[HalfAt(slot).sid];
                   && iocb.buffer != (0, 0) && NamesUri(iocb.name, n.uri) && n.method_ == MethodOf(mode)
                      && n.flags == FlagsOf(mode)
                   && n.taken == [] && n.commits == 0
      ensures Quiet(old(device.Gauge()), device.Gauge())
      ensures a == IO_ERROR ==> Impeded(old(device.Gauge()), device.Gauge())
      ensures device.transactions <= old(device.transactions) + old(Drain()) + POLLS + 2
    {
      hide Coupled, Effect, Evolves, Parse, Accepted, Seal, SioAdapter.Ok, U32, U16, SessionOpened, NamesUri, Later,
           Impeded, Active, Resident.Linked;
      ghost var uri, m := [], device.Gauge();
      a, uri := ReadyOpen(mode, iocb);
      ghost var m1 := device.Gauge();
      if a != SUCCESS {
        return;
      }
      ghost var req := Open(MethodOf(mode), FlagsOf(mode), uri);
      var carry, handle := ExchangeOpen(req);
      LaterTransitive(m, m1, device.Gauge());
      if carry {
        ImpededEarlier(m, m1, device.Gauge());
        return IO_ERROR;
      }
      TakeSlot(mode, handle, req);
    }

    /** The slot an IOCB owns, searched from X = 16 down; 2 when it owns none. */
    function FoundAt(x: byte): (f: nat)
      requires Shape()
      reads owners
    {
      if owners[1].own == x then 1 else if owners[0].own == x then 0 else 2
    }

    /** The slot OPEN takes, if it is free: the one at X = 16 by preference. */
    function FreeAt(): (t: nat)
      requires Shape()
      reads owners
    {
      if owners[1].own >= 0x80 then 1 else 0
    }

    lemma Mirrored()
      requires Shape()
      ensures Linked(0) <==> Linked(1)
    {
      CoupledBothWays(HalfAt(0), HalfAt(1), device.dev, device.service, hist);
    }

    /** `do_open`. */
    method DoOpen(iocb: Iocb) returns (a: byte)
      requires Valid() && caller_x <= 0x70 && FoundAt(caller_x) == 2
      modifies `command, `polls, `wire_len, `wire_hi, `outstanding, `request_len, `payload, `payload_len, `ptr,
               `sid0, `sid1, `slot, packet, owners, device
      ensures Valid()
      ensures var t := old(FreeAt());
              && HalfAt(1 - t) == old(HalfAt(1 - t))
              && Opens(iocb, a, old(HalfAt(t)), HalfAt(t), HalfAt(1 - t), old(Acc()), Acc())
      ensures a == SUCCESS ==> FoundAt(caller_x) == old(FreeAt())
      ensures a != BAD_IOCB && a != NOT_OPEN && a != ALREADY_OPEN
      ensures device.transactions <= old(device.transactions) + old(Drain()) + POLLS + 2
    {
      hide Coupled, SioAdapter.Ok, U32, U16, NamesUri, Later, Impeded;
      Mirrored();
      QuietSame(device.Gauge());
      if iocb.aux1 != 4 && iocb.aux1 != 8 && iocb.aux1 != 12 {
        return UNSUPPORTED;
      }
      if owners[1].own >= 0x80 {
        slot := 1;
      } else if owners[0].own >= 0x80 {
        slot := 0;
      } else {
        return NO_OWNER;
      }
      a := OpenSlot(iocb.aux1, iocb);
      Mirrored();
    }

    /** LEN of the owner an IOCB finds. */
    function EntryLen(x: byte): nat
      requires Shape()
      reads owners
    {
      if FoundAt(x) == 2 then 0 else owners[FoundAt(x)].len
    }

    /** CLOSE on an IOCB that owns a slot. */
    method ServeClose() returns (a: byte)
      requires Valid() && slot < 2 && Active(HalfAt(slot))
      requires operation == CLOSE
      modifies `command, `polls, `wire_len, `wire_hi, `outstanding, `request_len, `payload, `payload_len, `count,
               `hist, owners, caches, packet, device
      ensures Valid() && HalfAt(1 - slot) == old(HalfAt(1 - slot))
      ensures Serves(operation, old(caller_a), a, caller_a, old(HalfAt(slot)), HalfAt(slot), old(Acc()), Acc(),
                     old(device.trace), device.trace)
      ensures a != BAD_IOCB && a != NOT_OPEN && a != ALREADY_OPEN
      ensures device.transactions <= old(device.transactions) + (POLLS as nat + 2) * (old(OwnerAt(slot)).len as nat + 2)
                + 122
    {
      hide Coupled, SioAdapter.Ok, U32, U16, Recorded, Durable, Exhausted, EndsExactly, Quiet, Impeded, Asks, Fulfilled;
      Mirrored();
      a := DoClose();
      Mirrored();
    }

    /** The same for STATUS, the last of the table. */
    method ServeStatus() returns (a: byte)
      requires Valid() && slot < 2 && Active(HalfAt(slot))
      requires operation != OPEN && operation != GET && operation != PUT && operation != CLOSE
      modifies `command, `polls, `wire_len, `wire_hi, `outstanding, `request_len, `payload, `payload_len, `count,
               `hist, owners, caches, packet, device
      ensures Valid() && HalfAt(1 - slot) == old(HalfAt(1 - slot))
      ensures Serves(operation, old(caller_a), a, caller_a, old(HalfAt(slot)), HalfAt(slot), old(Acc()), Acc(),
                     old(device.trace), device.trace)
      ensures a != BAD_IOCB && a != NOT_OPEN && a != ALREADY_OPEN
      ensures device.transactions <= old(device.transactions) + (POLLS as nat + 2) * (old(OwnerAt(slot)).len as nat + 2)
                + 122
    {
      hide Coupled, SioAdapter.Ok, U32, U16, Recorded, Durable, Exhausted, EndsExactly, Quiet, Impeded, Asks, Fulfilled;
      Mirrored();
      a := DoStatus();
      Mirrored();
    }

    /** The same for GET. */
    method ServeGet() returns (a: byte)
      requires Valid() && slot < 2 && Active(HalfAt(slot)) && operation == GET
      modifies `command, `polls, `wire_len, `wire_hi, `outstanding, `request_len, `payload, `payload_len, `count,
               `caller_a, `hist, owners, caches, packet, device
      ensures Valid() && HalfAt(1 - slot) == old(HalfAt(1 - slot))
      ensures Serves(operation, old(caller_a), a, caller_a, old(HalfAt(slot)), HalfAt(slot), old(Acc()), Acc(),
                     old(device.trace), device.trace)
      ensures a != BAD_IOCB && a != NOT_OPEN && a != ALREADY_OPEN
      ensures device.transactions <= old(device.transactions) + (POLLS as nat + 2) * (old(OwnerAt(slot)).len as nat + 2)
                + 122
    {
      hide Coupled, SioAdapter.Ok, U32, U16, Recorded, Durable, Exhausted, EndsExactly, OnlyWrote, Quiet, Impeded,
           Asks, Fulfilled;
      ghost var a0, sid, handle := Acc(), HalfAt(slot).sid, OwnerAt(slot).handle;
      Mirrored();
      QuietSame(a0.meter);
      QuietOnlyWrote(hist, a0.meter, a0.meter, sid, handle);
      WroteIsRecorded(a0, a0, sid, handle);
      a := DoGet();
      Mirrored();
    }

    /** The same for PUT. */
    method ServePut() returns (a: byte)
      requires Valid() && slot < 2 && Active(HalfAt(slot)) && operation == PUT
      modifies `command, `polls, `wire_len, `wire_hi, `outstanding, `request_len, `payload, `payload_len, `count,
               `hist, owners, caches, packet, device
      ensures Valid() && HalfAt(1 - slot) == old(HalfAt(1 - slot))
      ensures Serves(operation, old(caller_a), a, caller_a, old(HalfAt(slot)), HalfAt(slot), old(Acc()), Acc(),
                     old(device.trace), device.trace)
      ensures a != BAD_IOCB && a != NOT_OPEN && a != ALREADY_OPEN
      ensures device.transactions <= old(device.transactions) + (POLLS as nat + 2) * (old(OwnerAt(slot)).len as nat + 2)
                + 122
    {
      hide Coupled, SioAdapter.Ok, U32, U16, Serves, Impeded, Recorded;
      ghost var me, a0, trace0, data := HalfAt(slot), Acc(), device.trace, caller_a;
      Mirrored();
      a := DoPut();
      PutServes(data, a, me, HalfAt(slot), a0, Acc(), trace0, device.trace);
      Mirrored();
    }

    lemma PutServes(data: byte, y: byte, h: Half, h': Half, a: Account, a': Account,
                    trace: seq<Request>, trace': seq<Request>)
      requires Active(h) && h'.sid == h.sid
      requires h'.o == h.o.(offset := h'.o.offset, len := h'.o.len, pos := h'.o.pos, fault := h'.o.fault)
      requires !Writing(h) ==> y == (if h.o.mode == INPUT then UNSUPPORTED else IO_ERROR) && h'.o == h.o && a' == a
      requires Writing(h) ==>
                 && y == (if h'.o.fault == 0 then SUCCESS else IO_ERROR)
                 && (y == IO_ERROR ==> Impeded(a.meter, a'.meter))
                 && (h.o.len < 127 ==> y == SUCCESS && a'.meter == a.meter && h'.o.len == h.o.len + 1
                                       && h'.o.offset == h.o.offset)
                 && (y == SUCCESS && h.o.len >= 127 ==> h'.o.len == 0)
                 && Recorded(a, a', h.sid, h.o.handle, [data], [])
      ensures Serves(PUT, data, y, data, h, h', a, a', trace, trace')
    {
      hide Recorded, Impeded;
      QuietSame(a.meter);
      QuietOnlyWrote(a.hist, a.meter, a.meter, h.sid, h.o.handle);
      WroteIsRecorded(a, a, h.sid, h.o.handle);
    }

    /** The jump of `dispatch`. */
    method Serve() returns (a: byte)
      requires Valid() && slot < 2 && Active(HalfAt(slot)) && operation != OPEN
      modifies `command, `polls, `wire_len, `wire_hi, `outstanding, `request_len, `payload, `payload_len, `count,
               `caller_a, `hist, owners, caches, packet, device
      ensures Valid() && HalfAt(1 - slot) == old(HalfAt(1 - slot))
      ensures Serves(operation, old(caller_a), a, caller_a, old(HalfAt(slot)), HalfAt(slot), old(Acc()), Acc(),
                     old(device.trace), device.trace)
      ensures a != BAD_IOCB && a != NOT_OPEN && a != ALREADY_OPEN
      ensures device.transactions <= old(device.transactions) + (POLLS as nat + 2) * (old(OwnerAt(slot)).len as nat + 2)
                + 122
    {
      hide Serves, Resident.Valid, Active, U32, U16;
      if operation == GET {
        a := ServeGet();
      } else if operation == PUT {
        a := ServePut();
      } else if operation == CLOSE {
        a := ServeClose();
      } else {
        a := ServeStatus();
      }
    }

    /** `dispatch`. */
    method Dispatch(iocb: Iocb) returns (a: byte)
      requires Valid()
      modifies `command, `polls, `wire_len, `wire_hi, `outstanding, `request_len, `payload, `payload_len, `count,
               `ptr, `sid0, `sid1, `slot, `caller_a, `hist, owners, caches, packet, device
      ensures Valid()
      ensures Answered(operation, old(caller_a), caller_x, iocb, a, caller_a, old(Snap()), Snap())
      ensures a == BAD_IOCB || a == NOT_OPEN || a == ALREADY_OPEN ==> device.transactions == old(device.transactions)
      ensures device.transactions <= old(device.transactions) + (POLLS as nat + 2) * (old(EntryLen(caller_x)) + 2) + 122
    {
      hide Coupled, SioAdapter.Ok, U32, U16, Serves, Opens, Answered, Resident.Rested, Resident.Linked,
           SioAdapter.Gauge;
      ghost var st, x, data := Snap(), caller_x, caller_a;
      FoundInSnap(x);
      if caller_x % 16 != 0 || caller_x >= 0x80 {
        AnsweredRefusal(operation, data, x, iocb, BAD_IOCB, st);
        return BAD_IOCB;
      }
      var f := FoundAt(caller_x);
      if f == 2 {
        if operation == OPEN {
          a := DoOpen(iocb);
          AnsweredOpen(data, x, iocb, a, st, Snap());
        } else {
          a := NOT_OPEN;
          AnsweredRefusal(operation, data, x, iocb, a, st);
        }
        return;
      }
      slot := f;
      if operation == OPEN {
        AnsweredRefusal(operation, data, x, iocb, ALREADY_OPEN, st);
        return ALREADY_OPEN;
      }
      a := Serve();
      AnsweredService(operation, data, x, iocb, a, caller_a, st, Snap());
    }

    lemma FoundInSnap(x: byte)
      requires Shape()
      ensures Snap().Found(x) == FoundAt(x) && Snap().Free() == FreeAt()
      ensures Snap().At(0) == HalfAt(0) && Snap().At(1) == HalfAt(1)
    {
    }

    /** The five CIO entry points: the gateway saves what it borrows, refuses to
        be re-entered, and answers for exactly one owner. */
    method Gateway(op: byte, a: byte, x: byte, iocb: Iocb) returns (y: byte)
      requires Valid()
      modifies this, owners, caches, packet, device
      ensures Valid() && busy == old(busy) && ptr == old(ptr)
      ensures old(busy) != 0 ==> y == UNSUPPORTED && Snap() == old(Snap())
                                 && device.transactions == old(device.transactions)
      ensures old(busy) == 0 ==> Answered(op, a, x, iocb, y, caller_a, old(Snap()), Snap())
      ensures device.transactions <= old(device.transactions) + 62 * (old(EntryLen(x)) + 2) + 122
    {
      hide Coupled, SioAdapter.Ok, U32, U16, Answered, Resident.Valid, Resident.Snap, Resident.EntryLen;
      if busy != 0 {
        return UNSUPPORTED;
      }
      busy := busy + 1;
      caller_a, caller_x, operation := a, x, op;
      var saved_zp := ptr;
      y := Dispatch(iocb);
      ptr := saved_zp;
      busy := busy - 1;
    }
  }
}
