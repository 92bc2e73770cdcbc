/** The device at the other end of the SIO cable: one transaction at a time,
    sent with W, watched with P, collected with R. Any of the three may fail
    before it takes effect, or take effect and lose its completion. The device
    may forget a request it has accepted, executed or not. */
module Adapter {
  import opened Bytes
  import opened Wire
  import opened Server

  /** `tag` numbers the W that carried the request. */
  datatype Dev =
    | Idle
    | Busy(tag: nat, req: seq<byte>)
    | Ready(tag: nat, req: seq<byte>, reply: seq<byte>)

  /** Progress the device and the service can make without a new W: execute the
      request held, let the reply held be collected, or forget either. */
  ghost predicate Evolves(d: Dev, s: Service, d': Dev, s': Service)
    requires ServiceOk(s)
  {
    || (d' == d && s' == s)
    || (d.Busy? && d'.Ready? && d'.tag == d.tag && d'.req == d.req && Effect(s, d.req, d'.reply, s'))
    || (d.Busy? && d'.Idle? && exists r :: Effect(s, d.req, r, s'))
    || (d'.Idle? && s' == s)
  }

  lemma EvolvesKeepsService(d: Dev, s: Service, d': Dev, s': Service)
    requires ServiceOk(s) && Evolves(d, s, d', s')
    ensures ServiceOk(s')
  {
    if s' != s {
      var r :| Effect(s, d.req, r, s');
      EffectKeepsService(s, d.req, r, s');
    }
  }

  lemma EvolvesTransitive(d0: Dev, s0: Service, d1: Dev, s1: Service, d2: Dev, s2: Service)
    requires ServiceOk(s0) && Evolves(d0, s0, d1, s1)
    requires ServiceOk(s1) && Evolves(d1, s1, d2, s2)
    ensures Evolves(d0, s0, d2, s2)
  {
  }

  /** The tags executed are those of before, or the one in flight as well. */
  predicate ExecutedOnce(d: Dev, e: seq<nat>, d': Dev, e': seq<nat>) {
    && (e' == e || (d.Busy? && e' == e + [d.tag]))
    && (!d'.Idle? ==> e' == e + if d.Busy? && d'.Ready? then [d.tag] else [])
  }

  lemma ExecutedTransitive(d0: Dev, s0: Service, e0: seq<nat>, d1: Dev, s1: Service, e1: seq<nat>, d2: Dev, s2: Service,
                           e2: seq<nat>)
    requires ServiceOk(s0) && Evolves(d0, s0, d1, s1) && ExecutedOnce(d0, e0, d1, e1)
    requires ServiceOk(s1) && Evolves(d1, s1, d2, s2) && ExecutedOnce(d1, e1, d2, e2)
    ensures ExecutedOnce(d0, e0, d2, e2)
  {
  }

  /** What the wire and the service have been through: W transactions started,
      W and R completions lost or failed, times that sixty polls in a row ended no
      wait, polls that reported a reply of a length no R can collect, the latest
      request that the device forgot or answered with a reply the handler had no
      reason to believe, the latest request executed, the WRITEs put on the wire. */
  datatype Meter = Meter(sent: nat, losses: nat, timeouts: nat, stuck: nat, unanswered: nat, done: nat,
                         writes: seq<Request>, service: Service)

  /** Time passes in one direction. */
  ghost predicate Later(m: Meter, m': Meter) {
    && m.sent <= m'.sent && m.losses <= m'.losses && m.timeouts <= m'.timeouts && m.stuck <= m'.stuck
    && m.unanswered <= m'.unanswered
    && Grows(m.service, m'.service)
  }

  lemma LaterTransitive(m0: Meter, m1: Meter, m2: Meter)
    requires Later(m0, m1) && Later(m1, m2)
    ensures Later(m0, m2)
  {
    GrowsTransitive(m0.service, m1.service, m2.service);
  }

  lemma LaterCounts(m: Meter, m': Meter)
    requires Later(m, m')
    ensures m.sent <= m'.sent && Grows(m.service, m'.service)
  {
  }

  /** No WRITE is put on the wire. */
  ghost predicate Quiet(m: Meter, m': Meter) {
    Later(m, m') && m'.writes == m.writes
  }

  /** The only excuses for failing between m and m': a W or R did not complete,
      sixty polls in a row ended no wait, the reply held was one R cannot collect,
      or a request sent since m was forgotten or got a reply not to be believed. */
  predicate Impeded(m: Meter, m': Meter) {
    m'.losses > m.losses || m'.timeouts > m.timeouts || m'.stuck > m.stuck || m'.unanswered > m.sent
  }

  /** The latest request was executed, and got a reply that is to be believed. */
  predicate Fulfilled(m: Meter) {
    m.done == m.sent && m.unanswered < m.sent
  }

  /** An excuse stays one, seen from earlier and from later. */
  lemma ImpededEarlier(m0: Meter, m1: Meter, m2: Meter)
    requires Later(m0, m1) && Impeded(m1, m2)
    ensures Impeded(m0, m2)
  {
  }

  lemma ImpededLater(m0: Meter, m1: Meter, m2: Meter)
    requires Impeded(m0, m1) && Later(m1, m2)
    ensures Impeded(m0, m2)
  {
  }

  lemma ImpededWithin(m0: Meter, m1: Meter, m2: Meter)
    requires Later(m0, m1) && Later(m1, m2)
    ensures Impeded(m0, m1) || Impeded(m1, m2) ==> Impeded(m0, m2)
  {
  }

  /** The WRITEs among the requests of a trace. */
  function WritesIn(trace: seq<Request>): seq<Request> {
    if trace == [] then [] else
      var r := trace[|trace| - 1];
      WritesIn(trace[..|trace| - 1]) + if r.Write? then [r] else []
  }

  lemma OneMoreRequest(trace: seq<Request>, r: Request)
    ensures WritesIn(trace + [r]) == WritesIn(trace) + if r.Write? then [r] else []
  {
    assert (trace + [r])[..|trace|] == trace;
  }

  function LatestOf(tags: seq<nat>): nat {
    if tags == [] then 0 else tags[|tags| - 1]
  }

  /** A reply of this length can be collected into the packet. */
  predicate Collectable(n: nat) {
    1 <= n <= 512
  }

  class SioAdapter {
    var dev: Dev
    var service: Service
    var sent: nat              // W transactions started, the tag of the latest
    var transactions: nat      // W, P and R together
    var executed: seq<nat>     // tags of the requests executed, in order
    ghost var trace: seq<Request>  // every request put on the wire
    ghost var writes: seq<Request> // the WRITEs among them
    ghost var losses: nat
    ghost var waiting: nat     // polls since the latest that ended a wait, modulo sixty
    ghost var timeouts: nat
    ghost var stuck: nat
    ghost var unanswered: nat

    ghost function Gauge(): Meter
      reads this
    {
      Meter(sent, losses, timeouts, stuck, unanswered, LatestOf(executed), writes, service)
    }

    /** Nothing is executed twice, and only the latest W can be in flight. */
    ghost predicate Ok()
      reads this
    {
      && ServiceOk(service)
      && (forall i, j :: 0 <= i < j < |executed| ==> executed[i] < executed[j])
      && (forall i :: 0 <= i < |executed| ==> executed[i] <= sent)
      && (dev.Busy? ==> dev.tag == sent && sent !in executed && Framed(dev.req))
      && (dev.Ready? ==> dev.tag == sent && sent in executed && Framed(dev.req) && |dev.reply| < WORD)
      && unanswered <= sent == |trace| && writes == WritesIn(trace) && waiting < 60
    }

    /** The request in flight may or may not be executed. */
    method Execute()
      requires Ok()
      modifies this`dev, this`service, this`executed
      ensures Ok() && Evolves(old(dev), old(service), dev, service) && Grows(old(service), service)
      ensures old(dev).Busy? ==> dev == old(dev) || dev.Ready?
      ensures !old(dev).Busy? ==> dev == old(dev)
      ensures executed == old(executed) + if old(dev).Busy? && dev.Ready? then [old(dev).tag] else []
    {
      GrowsSame(service);
      if dev.Busy? {
        if * {
          assert Effect(service, dev.req, [], service);
          ghost var was := service;
          var reply, after :| Effect(service, dev.req, reply, after);
          EffectKeepsService(service, dev.req, reply, after);
          EffectGrows(service, dev.req, reply, after);
          executed := executed + [dev.tag];
          dev, service := Ready(dev.tag, dev.req, reply), after;
        }
      }
    }

    /** Time passes; what is in flight may be executed, or forgotten. */
    method Tick()
      requires Ok()
      modifies this`dev, this`service, this`executed, this`unanswered
      ensures Ok() && Evolves(old(dev), old(service), dev, service) && Quiet(old(Gauge()), Gauge())
      ensures unanswered == if dev.Idle? && !old(dev).Idle? then sent else old(unanswered)
      ensures old(dev).Idle? ==> dev.Idle?
      ensures ExecutedOnce(old(dev), old(executed), dev, executed)
    {
      hide Effect, ServiceOk, Framed, WritesIn, Grows;
      Execute();
      var forgotten: bool := *;
      if !dev.Idle? && forgotten {
        dev, unanswered := Idle, sent;
      }
    }

    /** A W is on its way. */
    method Start(r: Request)
      requires Ok() && dev.Idle?
      modifies this`sent, this`transactions, this`trace, this`writes
      ensures Ok() && sent == old(sent) + 1 && transactions == old(transactions) + 1
      ensures trace == old(trace) + [r] && writes == old(writes) + if r.Write? then [r] else []
    {
      hide ServiceOk;
      sent, transactions := sent + 1, transactions + 1;
      OneMoreRequest(trace, r);
      trace := trace + [r];
      writes := writes + if r.Write? then [r] else [];
    }

    /** The request arrives, and may be executed at once. */
    method Arrive(frame: seq<byte>)
      requires Ok() && dev.Idle? && Framed(frame) && sent !in executed
      modifies this`dev, this`service, this`executed
      ensures Ok() && Evolves(Busy(sent, frame), old(service), dev, service) && Grows(old(service), service)
      ensures !dev.Idle? && executed == old(executed) + if dev.Ready? then [sent] else []
    {
      hide Framed, Effect, Parse;
      dev := Busy(sent, frame);
      Execute();
    }

    /** W: hand over a request. It must be a whole frame and the device must be
        free: both are obligations on the handler. */
    method Transmit(buf: array<byte>, n: nat) returns (ok: bool)
      requires Ok() && dev.Idle?
      requires n <= buf.Length && Framed(buf[..n])
      modifies this
      ensures Ok() && sent == old(sent) + 1 && transactions == old(transactions) + 1
      ensures trace == old(trace) + [Parse(buf[..n])]
      ensures Later(old(Gauge()), Gauge())
      ensures writes == old(writes) + if Parse(buf[..n]).Write? then [Parse(buf[..n])] else []
      ensures losses == old(losses) + if ok then 0 else 1
      ensures timeouts == old(timeouts) && stuck == old(stuck) && unanswered == old(unanswered)
      ensures Evolves(Busy(sent, buf[..n]), old(service), dev, service)
      ensures dev.Idle? ==> !ok && service == old(service)
      ensures executed == old(executed) + if dev.Ready? then [sent] else []
    {
      hide Framed, Effect, Parse, Grows;
      GrowsSame(service);
      Start(Parse(buf[..n]));
      waiting := 0;
      if * {
        losses := losses + 1;
        return false;
      }
      Arrive(buf[..n]);
      ok := *;
      losses := losses + if ok then 0 else 1;
    }

    /** The answer to a poll, if it arrives. */
    method Report(buf: array<byte>) returns (ok: bool)
      requires Ok() && buf.Length >= 3
      modifies this`waiting, this`timeouts, this`stuck, buf
      ensures Ok() && timeouts >= old(timeouts)
      ensures stuck == old(stuck) + if ok && dev.Ready? && !Collectable(|dev.reply|) then 1 else 0
      ensures if ok && !dev.Busy? then timeouts == old(timeouts) && waiting == 0
              else 60 * timeouts + waiting == 60 * old(timeouts) + old(waiting) + 1
      ensures forall i :: 3 <= i < buf.Length ==> buf[i] == old(buf[i])
      ensures ok ==> (buf[0] == 0 <==> dev.Idle?) && (buf[0] == 2 <==> dev.Ready?)
      ensures ok && dev.Ready? ==> U16(buf[1], buf[2]) == |dev.reply|
    {
      hide ServiceOk, Framed, WritesIn;
      buf[0], buf[1], buf[2] := *, *, *;
      ok := *;
      if ok {
        buf[0] := if dev.Idle? then 0 else if dev.Ready? then 2 else 1;
        if dev.Ready? {
          buf[1], buf[2] := |dev.reply| % 256, |dev.reply| / 256;
          stuck := stuck + if Collectable(|dev.reply|) then 0 else 1;
        }
      }
      waiting := if ok && !dev.Busy? then 0 else waiting + 1;
      if waiting == 60 {
        waiting, timeouts := 0, timeouts + 1;
      }
    }

    /** P: report idle (0), busy or ready (2) with the length of the reply. */
    method Poll(buf: array<byte>) returns (ok: bool)
      requires Ok() && buf.Length >= 3
      modifies this`dev, this`service, this`executed, this`transactions, this`waiting, this`timeouts, this`stuck,
               this`unanswered, buf
      ensures Ok() && transactions == old(transactions) + 1 && Quiet(old(Gauge()), Gauge())
      ensures unanswered == if dev.Idle? && !old(dev).Idle? then sent else old(unanswered)
      ensures old(dev).Idle? ==> dev.Idle?
      ensures stuck == old(stuck) + if ok && dev.Ready? && !Collectable(|dev.reply|) then 1 else 0
      ensures if ok && !dev.Busy? then timeouts == old(timeouts) && waiting == 0
              else 60 * timeouts + waiting == 60 * old(timeouts) + old(waiting) + 1
      ensures Evolves(old(dev), old(service), dev, service)
      ensures ExecutedOnce(old(dev), old(executed), dev, executed)
      ensures forall i :: 3 <= i < buf.Length ==> buf[i] == old(buf[i])
      ensures ok ==> (buf[0] == 0 <==> dev.Idle?) && (buf[0] == 2 <==> dev.Ready?)
      ensures ok && dev.Ready? ==> U16(buf[1], buf[2]) == |dev.reply|
    {
      hide Effect, ServiceOk, Framed, Grows, WritesIn, Evolves, U16;
      transactions := transactions + 1;
      Tick();
      ok := Report(buf);
    }

    /** R: collect the reply, of exactly the length P reported. */
    method Fetch(buf: array<byte>, n: nat) returns (ok: bool)
      requires Ok() && dev.Ready? && n == |dev.reply| && Collectable(n) && buf.Length == 512
      modifies this`dev, this`transactions, this`losses, this`unanswered, buf
      ensures Quiet(old(Gauge()), Gauge())
      ensures losses == old(losses) + if ok then 0 else 1
      ensures unanswered == if ok && !Believed(old(dev).req, old(dev).reply) then sent else old(unanswered)
      ensures Ok() && transactions == old(transactions) + 1
      ensures dev == old(dev) || dev.Idle?
      ensures ok ==> dev.Idle? && buf[..n] == old(dev).reply
      ensures forall i :: n <= i < buf.Length ==> buf[i] == old(buf[i])
    {
      hide Effect, ServiceOk, Framed, Grows, WritesIn, Believed;
      GrowsSame(service);
      transactions := transactions + 1;
      ok := *;
      var arrived, retired: bool := *, *;
      losses := losses + if ok then 0 else 1;
      unanswered := if ok && !Believed(dev.req, dev.reply) then sent else unanswered;
      if ok || arrived {
        forall i | 0 <= i < n { buf[i] := dev.reply[i]; }
      }
      if ok || retired {
        dev := Idle;
      }
    }
  }
}
