/** The NetworkService behind the wire, as far as the handler relies on it. */
module Server {
  import opened Bytes
  import opened Wire

  /** One OPEN that the service executed. `taken` is what it accepted from
      WRITEs, `commits` how many zero-length WRITEs it accepted, `stream` what
      READs of this session return. */
  datatype Session = Session(handle: nat, method_: byte, flags: byte, uri: seq<byte>,
                             taken: seq<byte>, commits: nat, stream: seq<byte>)

  /** `log` lists every session ever opened; `open` finds the live ones. */
  datatype Service = Service(log: seq<Session>, open: map<nat, nat>)

  predicate ServiceOk(s: Service) {
    && (forall h :: h in s.open ==> s.open[h] < |s.log| && s.log[s.open[h]].handle == h)
    && (forall i :: 0 <= i < |s.log| ==> |s.log[i].stream| < LONG)
  }

  predicate OpenEffect(s: Service, m: byte, flags: byte, uri: seq<byte>, reply: seq<byte>, s': Service) {
    || (s' == s && !GrantsOpen(reply))
    || (&& |s'.log| == |s.log| + 1
        && s'.log[..|s.log|] == s.log
        && var n := s'.log[|s.log|];
           && n == Session(n.handle, m, flags, uri, [], 0, n.stream)
           && |n.stream| < LONG
           && n.handle < WORD && n.handle !in s.open
           && s'.open == s.open[n.handle := |s.log|]
           && (GrantsOpen(reply) ==> U16(OpenHandle(reply).0, OpenHandle(reply).1) == n.handle))
  }

  /** The service takes any prefix of the data, and a reply the handler would
      believe states how much it took. Nothing is assumed of other replies. */
  predicate WriteEffect(s: Service, h: nat, data: seq<byte>, reply: seq<byte>, s': Service)
    requires ServiceOk(s)
  {
    if h !in s.open then s' == s else
      var sid := s.open[h];
      && s'.open == s.open
      && |s'.log| == |s.log|
      && (forall i :: 0 <= i < |s.log| && i != sid ==> s'.log[i] == s.log[i])
      && var o, n := s.log[sid], s'.log[sid];
         && n == o.(taken := n.taken, commits := n.commits)
         && o.taken <= n.taken <= o.taken + data
         && o.commits <= n.commits <= o.commits + (if data == [] then 1 else 0)
         && (GrantsCount(reply, CMD_WRITE, h) ==>
               && Count(reply) == |n.taken| - |o.taken|
               && (data == [] ==> n.commits == o.commits + 1))
  }

  predicate ReadEffect(s: Service, h: nat, offset: nat, reply: seq<byte>, s': Service)
    requires ServiceOk(s)
  {
    && s' == s
    && (h in s.open && GrantsData(reply, h) ==>
          var stream := s.log[s.open[h]].stream;
          && offset + Count(reply) <= |stream|
          && Data(reply) == stream[offset..offset + Count(reply)]
          && (Last(reply) ==> offset + Count(reply) == |stream|))
  }

  /** What executing one request frame may do, and what it may answer. */
  predicate Effect(s: Service, req: seq<byte>, reply: seq<byte>, s': Service)
    requires ServiceOk(s)
  {
    && |reply| < WORD
    && match Parse(req)
       case Open(m, flags, uri) => OpenEffect(s, m, flags, uri, reply, s')
       case Read(h, offset, _) => ReadEffect(s, h, offset, reply, s')
       case Write(h, _, data) => WriteEffect(s, h, data, reply, s')
       case Close(h) => s' == s || s' == s.(open := s.open - {h})
       case Info(_) => s' == s
       case Malformed => s' == s
  }

  lemma EffectKeepsService(s: Service, req: seq<byte>, reply: seq<byte>, s': Service)
    requires ServiceOk(s) && Effect(s, req, reply, s')
    ensures ServiceOk(s')
    ensures |s'.log| >= |s.log|
    ensures forall i :: 0 <= i < |s.log| ==> s'.log[i].handle == s.log[i].handle && s'.log[i].stream == s.log[i].stream
  {
    if Parse(req).Open? && s' != s {
      forall i | 0 <= i < |s.log| ensures s'.log[i] == s.log[i] {
        assert s'.log[..|s.log|][i] == s'.log[i];
      }
    }
  }

  // ------------------------------------------------------------------- growth

  /** The service forgets nothing it has taken; sessions keep their handles and
      their reply streams. */
  ghost predicate Grows(s: Service, s': Service) {
    && |s.log| <= |s'.log|
    && forall i :: 0 <= i < |s.log| ==> SessionGrows(s.log[i], s'.log[i])
  }

  predicate SessionGrows(o: Session, n: Session) {
    o.taken <= n.taken && o.commits <= n.commits && n.handle == o.handle && n.stream == o.stream
  }

  lemma GrowsSame(s: Service)
    ensures Grows(s, s)
  {
  }

  lemma GrowsTransitive(s0: Service, s1: Service, s2: Service)
    requires Grows(s0, s1) && Grows(s1, s2)
    ensures Grows(s0, s2)
  {
  }

  lemma EffectGrows(s: Service, req: seq<byte>, reply: seq<byte>, s': Service)
    requires ServiceOk(s) && Effect(s, req, reply, s')
    ensures Grows(s, s')
  {
    EffectKeepsService(s, req, reply, s');
    if Parse(req).Open? && s' != s {
      forall i | 0 <= i < |s.log| ensures s'.log[i] == s.log[i] {
        assert s'.log[..|s.log|][i] == s'.log[i];
      }
    }
  }

  /** An honest service may answer a READ with no bytes and no end flag before
      the end of the stream, and the handler will act on that. */
  lemma UnflaggedEnd(s: Service, h: nat, offset: nat)
    requires ServiceOk(s) && h in s.open && h < WORD && offset < |s.log[s.open[h]].stream|
    ensures ReadEffect(s, h, offset, EmptyReply(h), s)
    ensures GrantsData(EmptyReply(h), h) && Count(EmptyReply(h)) == 0 && !Last(EmptyReply(h))
  {
    EmptyReplyIsBelieved(h);
  }
}
