/** FujiNet wire frames as the resident handler builds and checks them. */
module Wire {
  import opened Bytes

  const DEVICE: byte := 0xfd
  const PACKET_MAX: nat := 160

  const CMD_OPEN: byte := 1
  const CMD_READ: byte := 2
  const CMD_WRITE: byte := 3
  const CMD_CLOSE: byte := 4
  const CMD_INFO: byte := 5

  /** One step of the end-around-carry sum (CLC / ADC / ADC #0). */
  function Fold(a: byte, b: byte): byte {
    if a + b < 256 then a + b else a + b - 255
  }

  /** Sum of the first n bytes, leaving out the checksum byte itself at 4. */
  function Checksum(f: seq<byte>, n: nat): byte
    requires n <= |f|
  {
    if n == 0 then 0
    else if n == 5 then Checksum(f, 4)
    else Fold(Checksum(f, n - 1), f[n - 1])
  }

  lemma {:induction false} ChecksumIgnoresItself(f: seq<byte>, g: seq<byte>, n: nat)
    requires n <= |f| && n <= |g|
    requires forall i :: 0 <= i < n && i != 4 ==> f[i] == g[i]
    ensures Checksum(f, n) == Checksum(g, n)
  {
    if n != 0 {
      ChecksumIgnoresItself(f, g, n - 1);
    }
  }

  /** The plain sum of the first n bytes but the one at 4, without bound. */
  function ByteSum(f: seq<byte>, n: nat): nat
    requires n <= |f|
  {
    if n == 0 then 0 else ByteSum(f, n - 1) + if n == 5 then 0 else f[n - 1]
  }

  lemma CarryAround(a: byte, b: byte, sum: nat)
    requires a as int % 255 == sum % 255
    ensures (if a + b < 256 then a + b else a + b - 255) % 255 == (sum + b) % 255
  {
    var d := (sum - a) / 255;
    assert sum == a + 255 * d;
  }

  /** The checksum is that sum modulo 255, and 0 only where every byte is. */
  lemma {:induction false} ChecksumIsSum(f: seq<byte>, n: nat)
    requires n <= |f|
    ensures Checksum(f, n) as int % 255 == ByteSum(f, n) % 255
    ensures Checksum(f, n) == 0 <==> forall i :: 0 <= i < n && i != 4 ==> f[i] == 0
  {
    if n > 0 {
      ChecksumIsSum(f, n - 1);
      if n != 5 {
        CarryAround(Checksum(f, n - 1), f[n - 1], ByteSum(f, n - 1));
      }
    }
  }

  predicate Framed(f: seq<byte>) {
    && 6 <= |f| <= PACKET_MAX
    && f[0] == DEVICE
    && f[2] == |f|
    && f[3] == 0
    && f[4] == Checksum(f, |f|)
  }

  /** What `exchange` makes of a prepared packet: length and checksum filled in. */
  function Seal(p: seq<byte>, n: nat): (f: seq<byte>)
    requires 6 <= n <= PACKET_MAX <= |p|
    ensures |f| == n
    ensures forall i :: 0 <= i < n && i != 2 && i != 4 ==> f[i] == p[i]
    ensures f[2] == n
  {
    var q := p[2 := n];
    q[4 := Checksum(q, n)][..n]
  }

  lemma SealedIsFramed(p: seq<byte>, n: nat)
    requires 6 <= n <= PACKET_MAX <= |p|
    requires p[0] == DEVICE && p[3] == 0
    ensures Framed(Seal(p, n))
  {
    var q := p[2 := n];
    ChecksumIgnoresItself(q, Seal(p, n), n);
  }

  datatype Request =
    | Open(method_: byte, flags: byte, uri: seq<byte>)
    | Read(handle: nat, offset: nat, limit: nat)
    | Write(handle: nat, offset: nat, data: seq<byte>)
    | Close(handle: nat)
    | Info(handle: nat)
    | Malformed

  /** How the device reads a request frame (version 1, no status descriptor). */
  function Parse(f: seq<byte>): Request {
    if !Framed(f) || |f| < 9 || f[5] != 0 || f[6] != 1 then Malformed
    else if f[1] == CMD_OPEN then
      if |f| >= 19 && U16(f[9], f[10]) == |f| - 19
         && (forall i :: |f| - 8 <= i < |f| ==> f[i] == 0)
      then Open(f[7], f[8], f[11..|f| - 8]) else Malformed
    else if f[1] == CMD_READ then
      if |f| == 15 then Read(U16(f[7], f[8]), U32(f[9], f[10], f[11], f[12]), U16(f[13], f[14]))
      else Malformed
    else if f[1] == CMD_WRITE then
      if |f| >= 15 && U16(f[13], f[14]) == |f| - 15
      then Write(U16(f[7], f[8]), U32(f[9], f[10], f[11], f[12]), f[15..]) else Malformed
    else if f[1] == CMD_CLOSE && |f| == 9 then Close(U16(f[7], f[8]))
    else if f[1] == CMD_INFO && |f| == 9 then Info(U16(f[7], f[8]))
    else Malformed
  }

  /** What makes bytes a frame. */
  lemma FrameInBytes(f: seq<byte>)
    ensures Framed(f) <==> 6 <= |f| <= 160 && f[0] == 0xfd && f[2] == |f| && f[3] == 0 && f[4] == Checksum(f, |f|)
  {
  }

  /** Any frame as the bytes of a request, in the numbers of the protocol. */
  lemma RequestInBytes(f: seq<byte>)
    requires Framed(f)
    ensures var g: seq<int> := f;
            var v := |f| >= 9 && f[5] == 0 && f[6] == 1;
            && (Parse(f).Open? <==> v && f[1] == 1 && |f| >= 19 && g[9] + 256 * g[10] == |f| - 19
                                    && forall i :: |f| - 8 <= i < |f| ==> f[i] == 0)
            && (Parse(f).Read? <==> v && f[1] == 2 && |f| == 15)
            && (Parse(f).Write? <==> v && f[1] == 3 && |f| >= 15 && g[13] + 256 * g[14] == |f| - 15)
            && (Parse(f).Close? <==> v && f[1] == 4 && |f| == 9)
            && (Parse(f).Info? <==> v && f[1] == 5 && |f| == 9)
    ensures var g: seq<int> := f;
            match Parse(f)
            case Open(m, flags, uri) => m == f[7] && flags == f[8] && uri == f[11..|f| - 8]
            case Read(h, offset, limit) =>
              && h == g[7] + 256 * g[8] && limit == g[13] + 256 * g[14]
              && offset == g[9] + 256 * g[10] + 65536 * g[11] + 16777216 * g[12]
            case Write(h, offset, data) =>
              && h == g[7] + 256 * g[8] && data == f[15..]
              && offset == g[9] + 256 * g[10] + 65536 * g[11] + 16777216 * g[12]
            case Close(h) => h == g[7] + 256 * g[8]
            case Info(h) => h == g[7] + 256 * g[8]
            case Malformed => true
  {
  }

  /** CLOSE of handle 1 in nine bytes: no other checksum will do. */
  lemma CloseFrame(c: byte)
    ensures var f: seq<byte> := [0xfd, 4, 9, 0, c, 0, 1, 1, 0];
            (Framed(f) <==> c == 0x0d) && (c == 0x0d ==> Parse(f) == Close(1))
  {
    var f: seq<byte> := [0xfd, 4, 9, 0, c, 0, 1, 1, 0];
    assert Checksum(f, 1) == 0xfd && Checksum(f, 2) == 2 && Checksum(f, 3) == 11 && Checksum(f, 4) == 11;
    assert Checksum(f, 5) == 11 && Checksum(f, 6) == 11 && Checksum(f, 7) == 12 && Checksum(f, 8) == 13;
    assert Checksum(f, 9) == 13;
  }

  /** The header `begin_packet` leaves behind. */
  predicate Begun(p: seq<byte>, cmd: byte) {
    |p| >= PACKET_MAX && p[0] == DEVICE && p[1] == cmd && p[3] == 0 && p[5] == 0 && p[6] == 1
  }

  lemma SealsOpen(p: seq<byte>, k: nat)
    requires Begun(p, CMD_OPEN) && k <= 128 && p[9] == k && p[10] == 0
    requires forall i :: 11 + k <= i < 19 + k ==> p[i] == 0
    ensures Parse(Seal(p, 19 + k)) == Open(p[7], p[8], p[11..11 + k])
  {
    SealedIsFramed(p, 19 + k);
    assert Seal(p, 19 + k)[11..11 + k] == p[11..11 + k];
  }

  lemma SealsRead(p: seq<byte>)
    requires Begun(p, CMD_READ)
    ensures Parse(Seal(p, 15)) == Read(U16(p[7], p[8]), U32(p[9], p[10], p[11], p[12]), U16(p[13], p[14]))
  {
    SealedIsFramed(p, 15);
  }

  lemma SealsWrite(p: seq<byte>, n: nat)
    requires Begun(p, CMD_WRITE) && n <= 128 && p[13] == n && p[14] == 0
    ensures Parse(Seal(p, 15 + n)) == Write(U16(p[7], p[8]), U32(p[9], p[10], p[11], p[12]), p[15..15 + n])
  {
    SealedIsFramed(p, 15 + n);
    assert Seal(p, 15 + n)[15..] == p[15..15 + n];
  }

  lemma SealsBare(p: seq<byte>, cmd: byte)
    requires Begun(p, cmd) && (cmd == CMD_CLOSE || cmd == CMD_INFO)
    ensures Parse(Seal(p, 9)) == if cmd == CMD_CLOSE then Close(U16(p[7], p[8])) else Info(U16(p[7], p[8]))
  {
    SealedIsFramed(p, 9);
  }

  /** Where the payload of a reply starts: after an optional one-byte descriptor. */
  function PayloadAt(r: seq<byte>): nat
    requires |r| >= 6
  {
    if r[5] == 0 then 6 else 7
  }

  /** The replies `exchange` lets through for a command. */
  predicate Accepted(r: seq<byte>, cmd: byte) {
    && Framed(r)
    && r[1] == cmd
    && (r[5] == 0 || (r[5] == 1 && |r| >= 7 && r[6] == 0))
    && var p := PayloadAt(r);
       |r| == p || (|r| - p >= 4 && r[p] == 1 && r[p + 2] == 0 && r[p + 3] == 0)
  }

  lemma AcceptedSize(r: seq<byte>, cmd: byte)
    requires Accepted(r, cmd)
    ensures 6 <= |r| <= PACKET_MAX
  {
  }

  /** An accepted OPEN reply that carries a handle the handler will keep. */
  predicate GrantsOpen(r: seq<byte>) {
    && Accepted(r, CMD_OPEN)
    && var p := PayloadAt(r);
       |r| - p >= 7 && !(r[p + 4] == 0xff && r[p + 5] == 0xff)
  }

  function OpenHandle(r: seq<byte>): (byte, byte)
    requires GrantsOpen(r)
  {
    (r[PayloadAt(r) + 4], r[PayloadAt(r) + 5])
  }

  /** An accepted READ or WRITE reply that also passes `check_rw` for a handle. */
  predicate GrantsCount(r: seq<byte>, cmd: byte, handle: nat) {
    && Accepted(r, cmd)
    && var p := PayloadAt(r);
       |r| - p >= 12 && U16(r[p + 4], r[p + 5]) == handle && r[p + 11] == 0 && r[p + 10] <= 128
  }

  function Count(r: seq<byte>): nat
    requires |r| >= 6 && |r| - PayloadAt(r) >= 12
  {
    r[PayloadAt(r) + 10]
  }

  /** A READ reply whose data the handler will copy into its cache. */
  predicate GrantsData(r: seq<byte>, handle: nat) {
    GrantsCount(r, CMD_READ, handle) && Count(r) <= |r| - PayloadAt(r) - 12
  }

  function Data(r: seq<byte>): seq<byte>
    requires |r| >= 6 && |r| - PayloadAt(r) >= 12 && Count(r) <= |r| - PayloadAt(r) - 12
  {
    r[PayloadAt(r) + 12..][..Count(r)]
  }

  predicate Last(r: seq<byte>)
    requires |r| >= 6 && |r| - PayloadAt(r) >= 12
  {
    r[PayloadAt(r) + 1] % 2 == 1
  }

  /** Any reply as its bytes: bare, or with payload version 1 and status 0; with
      or without the one-byte descriptor in front, which must be 0. */
  lemma ReplyInBytes(r: seq<byte>, cmd: byte)
    ensures Accepted(r, cmd) <==>
            && Framed(r) && r[1] == cmd
            && (|| (r[5] == 0 && (|r| == 6 || (|r| >= 10 && r[6] == 1 && r[8] == 0 && r[9] == 0)))
                || (r[5] == 1 && |r| >= 7 && r[6] == 0
                    && (|r| == 7 || (|r| >= 11 && r[7] == 1 && r[9] == 0 && r[10] == 0))))
  {
  }

  /** What the handler takes from a reply without descriptor, byte by byte. */
  lemma PlainReplyInBytes(r: seq<byte>, cmd: byte, handle: nat)
    requires Accepted(r, cmd) && r[5] == 0
    ensures GrantsOpen(r) <==> cmd == 1 && |r| >= 13 && !(r[10] == 0xff && r[11] == 0xff)
    ensures GrantsOpen(r) ==> OpenHandle(r) == (r[10], r[11])
    ensures var g: seq<int> := r;
            GrantsCount(r, cmd, handle) <==> |r| >= 18 && g[10] + 256 * g[11] == handle && r[16] <= 128 && r[17] == 0
    ensures GrantsData(r, handle) <==> cmd == 2 && GrantsCount(r, cmd, handle) && r[16] <= |r| - 18
    ensures |r| >= 18 ==> Count(r) == r[16] && (Last(r) <==> r[7] % 2 == 1)
    ensures GrantsData(r, handle) ==> Data(r) == r[18..18 + r[16]]
  {
  }

  /** The same behind a descriptor: everything stands one byte further on. */
  lemma DescribedReplyInBytes(r: seq<byte>, cmd: byte, handle: nat)
    requires Accepted(r, cmd) && r[5] == 1
    ensures GrantsOpen(r) <==> cmd == 1 && |r| >= 14 && !(r[11] == 0xff && r[12] == 0xff)
    ensures GrantsOpen(r) ==> OpenHandle(r) == (r[11], r[12])
    ensures var g: seq<int> := r;
            GrantsCount(r, cmd, handle) <==> |r| >= 19 && g[11] + 256 * g[12] == handle && r[17] <= 128 && r[18] == 0
    ensures GrantsData(r, handle) <==> cmd == 2 && GrantsCount(r, cmd, handle) && r[17] <= |r| - 19
    ensures |r| >= 19 ==> Count(r) == r[17] && (Last(r) <==> r[8] % 2 == 1)
    ensures GrantsData(r, handle) ==> Data(r) == r[19..19 + r[17]]
  {
  }

  /** The replies the handler acts on, given the request they answer: every
      test of `exchange`, `check_rw` and the routine that asked. */
  predicate Believed(f: seq<byte>, r: seq<byte>) {
    && |f| > 1 && Accepted(r, f[1])
    && match Parse(f)
       case Open(_, _, _) => GrantsOpen(r)
       case Read(h, _, _) => GrantsData(r, h)
       case Write(h, _, data) =>
         GrantsCount(r, CMD_WRITE, h) && Count(r) <= |data| && (Count(r) == 0 ==> data == [])
       case _ => true
  }

  /** Failing the test of the routine that asked is reason not to believe. */
  lemma NotBelieved(f: seq<byte>, r: seq<byte>)
    ensures |f| > 1 && !Accepted(r, f[1]) ==> !Believed(f, r)
    ensures |r| > PACKET_MAX ==> !Believed(f, r)
    ensures Parse(f).Open? && !GrantsOpen(r) ==> !Believed(f, r)
    ensures Parse(f).Read? && !GrantsData(r, Parse(f).handle) ==> !Believed(f, r)
    ensures Parse(f).Write? && !GrantsCount(r, CMD_WRITE, Parse(f).handle) ==> !Believed(f, r)
    ensures Parse(f).Write? && GrantsCount(r, CMD_WRITE, Parse(f).handle) && Believed(f, r) ==>
              Count(r) <= |Parse(f).data| && (Count(r) == 0 ==> Parse(f).data == [])
  {
  }

  /** What is enough to believe the reply to a READ, an INFO or a CLOSE. */
  lemma BelievedReply(f: seq<byte>, r: seq<byte>)
    requires |f| > 1 && Accepted(r, f[1]) && (Parse(f).Read? || Parse(f).Info? || Parse(f).Close?)
    ensures (Parse(f).Read? ==> GrantsData(r, Parse(f).handle)) ==> Believed(f, r)
  {
  }

  /** A READ reply of no bytes without the end flag. */
  function EmptyReply(handle: nat): seq<byte>
    requires handle < WORD
  {
    Seal([DEVICE, CMD_READ, 0, 0, 0, 0, 1, 0, 0, 0, Lo(handle), Hi(handle)] + seq(148, _ => 0), 18)
  }

  /** The handler acts on such a reply. */
  lemma EmptyReplyIsBelieved(handle: nat)
    requires handle < WORD
    ensures var r := EmptyReply(handle); GrantsData(r, handle) && Count(r) == 0 && !Last(r) && |r| == 18
  {
    SealedIsFramed([DEVICE, CMD_READ, 0, 0, 0, 0, 1, 0, 0, 0, Lo(handle), Hi(handle)] + seq(148, _ => 0), 18);
  }
}
