/** The directory-listing messages of the file service: requests, pages of
    entries, and what the client makes of any response bytes. */
module ListCodec {
  import opened Bytes

  const VERSION: byte := 1
  const IO_BUF_SIZE: nat := 512
  const MAX_PAYLOAD: nat := 420
  const LIST_NAME_MAX: nat := 220
  const SORT_BY_NAME: byte := 2
  const OVERHEAD: nat := 6        // what the size check counts
  const FIXED: nat := 8           // what is written beside the URI

  datatype Error =
    | None | InvalidArg | RequestTooLarge | Transport | Status
    | BadVersion | ShortResponse | EntriesBounds | EntryBounds

  /** A directory entry as the service has it: sizes and times in 64 bits. */
  datatype Entry = Entry(flags: byte, name: seq<byte>, size: nat, mtime: nat)

  /** One callback. */
  datatype Call = Call(isDir: bool, name: seq<byte>, size: nat, mtime: nat)

  const LONG64: nat := 0x1_0000_0000_0000_0000

  predicate EntryOk(e: Entry) {
    |e.name| <= LIST_NAME_MAX && 0 !in e.name && e.size < LONG64 && e.mtime < LONG64
  }

  /** What the caller hears of an entry: nothing but kind and name from a compact
      listing, else the low halves of size and time. */
  function Told(e: Entry, compact: bool): Call {
    Call(e.flags % 2 == 1, e.name, if compact then 0 else e.size % LONG, if compact then 0 else e.mtime % LONG)
  }

  function AllTold(es: seq<Entry>, compact: bool): seq<Call> {
    if es == [] then [] else [Told(es[0], compact)] + AllTold(es[1..], compact)
  }

  /** Entries from pages of different forms. */
  function ToldIn(es: seq<Entry>, forms: seq<bool>): seq<Call>
    requires |es| == |forms|
  {
    seq(|es|, i requires 0 <= i < |es| => Told(es[i], forms[i]))
  }

  function AllAlike(n: nat, compact: bool): seq<bool> {
    seq(n, _ => compact)
  }

  lemma {:induction false} ToldAlike(es: seq<Entry>, compact: bool)
    ensures AllTold(es, compact) == ToldIn(es, AllAlike(|es|, compact))
  {
    if es != [] {
      ToldAlike(es[1..], compact);
    }
  }

  lemma ToldNothing(es: seq<Entry>, forms: seq<bool>)
    ensures ToldIn(es[..0], forms[|forms|..]) == []
  {
  }

  lemma ToldOn(es: seq<Entry>, told: nat, count: nat, forms: seq<bool>, sent: nat, at: nat)
    requires told + count <= |es| && at == sent + told && |forms| == at + count
    ensures ToldIn(es[..told + count], forms[sent..])
            == ToldIn(es[..told], forms[sent..at]) + ToldIn(es[told..told + count], forms[at..])
  {
    ToldInTurn(es[..told], es[told..told + count], forms[sent..at], forms[at..]);
    assert es[..told + count] == es[..told] + es[told..told + count];
    assert forms[sent..] == forms[sent..at] + forms[at..];
  }

  lemma ToldInTurn(xs: seq<Entry>, ys: seq<Entry>, fs: seq<bool>, gs: seq<bool>)
    requires |xs| == |fs| && |ys| == |gs|
    ensures ToldIn(xs + ys, fs + gs) == ToldIn(xs, fs) + ToldIn(ys, gs)
  {
  }

  // ------------------------------------------------------------ little endian

  /** The k low bytes of n. */
  function Le(n: nat, k: nat): (s: seq<byte>)
    ensures |s| == k
  {
    if k == 0 then [] else [n % 256] + Le(n / 256, k - 1)
  }

  lemma Word(n: nat)
    requires n < WORD
    ensures Le(n, 2) == [Lo(n), Hi(n)] && U16(Lo(n), Hi(n)) == n
  {
    assert Le(n, 2) == [n % 256] + Le(n / 256, 1) == [n % 256] + ([n / 256 % 256] + Le(n / 256 / 256, 0));
  }

  function Long(b: seq<byte>): nat
    requires |b| >= 4
  {
    U32(b[0], b[1], b[2], b[3])
  }

  /** `get_u32le` of a 64-bit field: its low half. */
  lemma LowHalf(n: nat, k: nat)
    requires k >= 4
    ensures Long(Le(n, k)) == n % LONG
  {
    var n1, n2, n3 := n / 256, n / 256 / 256, n / 256 / 256 / 256;
    assert Le(n, k)[0] == n % 256;
    assert Le(n, k)[1] == Le(n1, k - 1)[0] == n1 % 256;
    assert Le(n, k)[2] == Le(n1, k - 1)[1] == Le(n2, k - 2)[0] == n2 % 256;
    assert Le(n, k)[3] == Le(n1, k - 1)[2] == Le(n2, k - 2)[1] == Le(n3, k - 3)[0] == n3 % 256;
    FourBytes(n);
  }

  lemma FourBytes(n: nat)
    ensures n % LONG == n % 256 + 256 * (n / 256 % 256) + 0x1_0000 * (n / 256 / 256 % 256)
              + 0x100_0000 * (n / 256 / 256 / 256 % 256)
  {
    var n1, n2, n3 := n / 256, n / 256 / 256, n / 256 / 256 / 256;
    Digits(n, n1, n2, n3, n3 / 256, n % 256, n1 % 256, n2 % 256, n3 % 256);
  }

  lemma Digits(n: nat, n1: nat, n2: nat, n3: nat, n4: nat, b0: byte, b1: byte, b2: byte, b3: byte)
    requires n == b0 + 256 * n1 && n1 == b1 + 256 * n2 && n2 == b2 + 256 * n3 && n3 == b3 + 256 * n4
    ensures n % LONG == b0 + 256 * b1 + 0x1_0000 * b2 + 0x100_0000 * b3
  {
    var low := b0 + 256 * b1 + 0x1_0000 * b2 + 0x100_0000 * b3;
    assert n == low + n4 * LONG;
    ModShift(low, n4);
  }

  // ----------------------------------------------------------------- requests

  datatype Request = BadRequest | Request(uri: seq<byte>, start: nat, payload: nat, flags: byte)

  function EncodeRequest(uri: seq<byte>, start: nat): seq<byte> {
    [VERSION] + Le(|uri|, 2) + uri + Le(start, 2) + Le(MAX_PAYLOAD, 2) + [SORT_BY_NAME]
  }

  /** The service's reading of a request. */
  function ParseRequest(b: seq<byte>): Request {
    if |b| < FIXED || b[0] != VERSION then BadRequest else
      var n := U16(b[1], b[2]);
      if |b| != FIXED + n then BadRequest
      else Request(b[3..3 + n], U16(b[3 + n], b[4 + n]), U16(b[5 + n], b[6 + n]), b[7 + n])
  }

  /** Round trip, for everything the two 16-bit fields can hold. */
  lemma RequestRoundTrip(uri: seq<byte>, start: nat)
    requires |uri| < WORD && start < WORD
    ensures ParseRequest(EncodeRequest(uri, start)) == Request(uri, start, MAX_PAYLOAD, SORT_BY_NAME)
    ensures |EncodeRequest(uri, start)| == FIXED + |uri|
  {
    Word(|uri|);
    Word(start);
    Word(MAX_PAYLOAD);
    var b := EncodeRequest(uri, start);
    assert b[1..3] == Le(|uri|, 2) && b[3..3 + |uri|] == uri;
    assert b[1] == b[1..3][0] && b[2] == b[1..3][1];
  }

  /** The request byte by byte: version 1, the URI behind its length, the start
      index, a limit of 420 bytes a page, and the flag for sorting by name. */
  lemma RequestInBytes(uri: seq<byte>, start: nat)
    requires |uri| < WORD && start < WORD
    ensures var b, n := EncodeRequest(uri, start), |uri|;
            && |b| == n + 8 && b[0] == 1 && b[1] == n % 256 && b[2] == n / 256 && b[3..3 + n] == uri
            && b[3 + n] == start % 256 && b[4 + n] == start / 256 && b[5 + n] == 0xa4 && b[6 + n] == 1 && b[7 + n] == 2
  {
    hide Le;
    TwoBytes(|uri|);
    TwoBytes(start);
    TwoBytes(MAX_PAYLOAD);
    var head: seq<byte> := [1, |uri| % 256, |uri| / 256];
    var tail: seq<byte> := [start % 256, start / 256, 0xa4, 1, 2];
    RequestParts(uri, head, tail);
    assert EncodeRequest(uri, start) == head + uri + tail;
  }

  lemma TwoBytes(n: nat)
    requires n < WORD
    ensures n / 256 < 256 && Le(n, 2) == [n % 256, n / 256]
  {
    Word(n);
  }

  lemma RequestParts(uri: seq<byte>, head: seq<byte>, tail: seq<byte>)
    requires |head| == 3 && |tail| == 5
    ensures var b, n := head + uri + tail, |uri|;
            && |b| == n + 8 && b[0] == head[0] && b[1] == head[1] && b[2] == head[2] && b[3..3 + n] == uri
            && b[3 + n] == tail[0] && b[4 + n] == tail[1] && b[5 + n] == tail[2] && b[6 + n] == tail[3]
            && b[7 + n] == tail[4]
  {
  }

  /** The check counts two bytes too few: it lets through exactly the two URI
      lengths whose request does not fit the buffer. */
  lemma GuardShort(uri: seq<byte>, start: nat)
    ensures |uri| + OVERHEAD <= IO_BUF_SIZE && |EncodeRequest(uri, start)| > IO_BUF_SIZE
            <==> |uri| == 505 || |uri| == 506
  {
  }

  // -------------------------------------------------------------------- pages

  function EncodeEntry(e: Entry, compact: bool): (s: seq<byte>)
    requires |e.name| < 256
    ensures |s| == 2 + |e.name| + (if compact then 0 else 16)
  {
    [e.flags, |e.name|] + (e.name + if compact then [] else Le(e.size, 8) + Le(e.mtime, 8))
  }

  predicate EntriesOk(es: seq<Entry>) {
    forall i :: 0 <= i < |es| ==> EntryOk(es[i])
  }

  function EncodeEntries(es: seq<Entry>, compact: bool): seq<byte>
    requires EntriesOk(es)
  {
    if es == [] then [] else EncodeEntry(es[0], compact) + EncodeEntries(es[1..], compact)
  }

  predicate More(flags: byte) {
    flags % 2 == 1
  }

  predicate Compact(flags: byte) {
    flags / 2 % 2 == 1
  }

  const HEADER: nat := 10

  /** A page: version, flags, four bytes the client ignores, two counts. */
  function EncodePage(es: seq<Entry>, flags: byte, gap: (byte, byte, byte, byte)): seq<byte>
    requires EntriesOk(es)
  {
    var body := EncodeEntries(es, Compact(flags));
    [VERSION, flags, gap.0, gap.1, gap.2, gap.3] + Le(|es|, 2) + Le(|body|, 2) + body
  }

  // ----------------------------------------------- the client, on any response

  /** The bytes before the first NUL. */
  function CString(s: seq<byte>): seq<byte> {
    if s == [] || s[0] == 0 then [] else [s[0]] + CString(s[1..])
  }

  lemma {:induction false} Terminated(name: seq<byte>, junk: seq<byte>)
    ensures CString(name + [0] + junk) == CString(name)
    ensures 0 !in name ==> CString(name) == name
  {
    var s := name + [0] + junk;
    if name != [] {
      assert s[0] == name[0] && s[1..] == name[1..] + [0] + junk;
      Terminated(name[1..], junk);
    }
  }

  /** The calls made, and how the decoding ended. */
  datatype Decoded = Decoded(calls: seq<Call>, error: Error)

  function After(first: Call, d: Decoded): Decoded {
    Decoded([first] + d.calls, d.error)
  }

  /** Whether an entry can be read off the front of b. */
  predicate EntryFits(b: seq<byte>, compact: bool) {
    |b| >= 2 && b[1] <= LIST_NAME_MAX && 2 + b[1] + (if compact then 0 else 16) <= |b|
  }

  function EntrySize(b: seq<byte>, compact: bool): nat
    requires EntryFits(b, compact)
  {
    2 + b[1] + if compact then 0 else 16
  }

  function FirstCall(b: seq<byte>, compact: bool): Call
    requires EntryFits(b, compact)
  {
    var n := 2 + b[1];
    Call(b[0] % 2 == 1, CString(b[2..n]), if compact then 0 else Long(b[n..n + 4]),
         if compact then 0 else Long(b[n + 8..n + 12]))
  }

  function DecodeEntries(b: seq<byte>, count: nat, compact: bool): Decoded {
    if count == 0 then Decoded([], None)
    else if !EntryFits(b, compact) then Decoded([], EntryBounds)
    else After(FirstCall(b, compact), DecodeEntries(b[EntrySize(b, compact)..], count - 1, compact))
  }

  /** A response with status OK. */
  function Decode(b: seq<byte>): Decoded {
    if |b| < HEADER then Decoded([], ShortResponse)
    else if b[0] != VERSION then Decoded([], BadVersion)
    else if (HEADER + U16(b[8], b[9])) % WORD > |b| then Decoded([], EntriesBounds)
    else DecodeEntries(b[HEADER..], U16(b[6], b[7]), Compact(b[1]))
  }

  /** An entry byte by byte. With bit 1 of the page's flags clear it takes 18 bytes
      and its name, and the size stands right behind the name, the time eight bytes
      further on; with the bit set it takes 2 bytes and its name. */
  lemma EntryInBytes(b: seq<byte>, flags: byte)
    ensures EntryFits(b, Compact(flags)) <==>
              && |b| >= 2 && b[1] <= 220
              && (if flags / 2 % 2 == 0 then 18 + b[1] as int <= |b| else 2 + b[1] as int <= |b|)
    ensures EntryFits(b, Compact(flags)) && flags / 2 % 2 == 0 ==>
              var g: seq<int>, n := b, b[1] as int;
              && EntrySize(b, Compact(flags)) == 18 + n
              && FirstCall(b, Compact(flags)) ==
                 Call(b[0] % 2 == 1, CString(b[2..2 + n]),
                      g[2 + n] + 256 * g[3 + n] + 65536 * g[4 + n] + 16777216 * g[5 + n],
                      g[10 + n] + 256 * g[11 + n] + 65536 * g[12 + n] + 16777216 * g[13 + n])
    ensures EntryFits(b, Compact(flags)) && flags / 2 % 2 == 1 ==>
              var n := b[1] as int;
              && EntrySize(b, Compact(flags)) == 2 + n
              && FirstCall(b, Compact(flags)) == Call(b[0] % 2 == 1, CString(b[2..2 + n]), 0, 0)
  {
  }

  /** A response byte by byte, up to its entries. */
  lemma ResponseInBytes(b: seq<byte>)
    ensures var g: seq<int> := b;
            Decode(b) ==
            if |b| < 10 then Decoded([], ShortResponse)
            else if b[0] != 1 then Decoded([], BadVersion)
            else if (10 + g[8] + 256 * g[9]) % 65536 > |b| then Decoded([], EntriesBounds)
            else DecodeEntries(b[10..], g[6] + 256 * g[7], b[1] / 2 % 2 == 1)
  {
  }

  /** A full page with the one file "a" of five bytes and time 7. */
  lemma FullPage(b: seq<byte>)
    requires |b| == 29 && b[0] == 1 && b[1] == 0 && b[6] == 1 && b[7] == 0 && b[8] == 19 && b[9] == 0
    requires b[10] == 0 && b[11] == 1 && b[12] == 0x61
    requires forall i :: 13 <= i < 29 ==> b[i] == if i == 13 then 5 else if i == 21 then 7 else 0
    ensures Decode(b) == Decoded([Call(false, [0x61], 5, 7)], None)
  {
    hide CString;
    ResponseInBytes(b);
    var e := b[10..];
    EntryInBytes(e, 0);
    assert e[2..2 + e[1] as int] == [b[12]];
    NameOf([b[12]]);
    OnlyEntry(e, false);
  }

  /** A compact page with the one directory "a". */
  lemma CompactPage(b: seq<byte>)
    requires |b| == 13 && b[0] == 1 && b[1] == 2 && b[6] == 1 && b[7] == 0 && b[8] == 3 && b[9] == 0
    requires b[10] == 1 && b[11] == 1 && b[12] == 0x61
    ensures Decode(b) == Decoded([Call(true, [0x61], 0, 0)], None)
  {
    hide CString;
    ResponseInBytes(b);
    var e := b[10..];
    EntryInBytes(e, 2);
    assert e[2..2 + e[1] as int] == [b[12]];
    NameOf([b[12]]);
    OnlyEntry(e, true);
  }

  lemma NameOf(s: seq<byte>)
    requires |s| == 1 && s[0] != 0
    ensures CString(s) == s
  {
    assert CString(s[1..]) == [];
  }

  lemma OnlyEntry(b: seq<byte>, compact: bool)
    requires EntryFits(b, compact)
    ensures DecodeEntries(b, 1, compact) == Decoded([FirstCall(b, compact)], None)
  {
    assert DecodeEntries(b[EntrySize(b, compact)..], 0, compact) == Decoded([], None);
  }

  // -------------------------------------------------------------- round trips

  lemma EntryShape(e: Entry, compact: bool, rest: seq<byte>)
    requires EntryOk(e)
    ensures var b, n := EncodeEntry(e, compact) + rest, 2 + |e.name|;
            && |b| >= n && b[0] == e.flags && b[1] == |e.name| && b[2..n] == e.name
            && (compact ==> b[n..] == rest)
            && (!compact ==> |b| >= n + 16 && b[n..n + 8] == Le(e.size, 8) && b[n + 8..n + 16] == Le(e.mtime, 8)
                             && b[n + 16..] == rest)
  {
    hide Le;
    var b, n := EncodeEntry(e, compact) + rest, 2 + |e.name|;
    var head: seq<byte> := [e.flags, |e.name|];
    if compact {
      assert b == head + e.name + rest;
      assert b[n..] == rest;
    } else {
      assert b == head + e.name + Le(e.size, 8) + Le(e.mtime, 8) + rest;
      EntryParts(head, e.name, Le(e.size, 8), Le(e.mtime, 8), rest);
    }
  }

  lemma EntryParts(head: seq<byte>, name: seq<byte>, s: seq<byte>, m: seq<byte>, rest: seq<byte>)
    requires |head| == 2 && |s| == 8 && |m| == 8
    ensures var b, n := head + name + s + m + rest, 2 + |name|;
            && |b| >= n + 16 && b[0] == head[0] && b[1] == head[1] && b[2..n] == name
            && b[n..n + 8] == s && b[n + 8..n + 16] == m && b[n + 16..] == rest
  {
  }

  lemma LongOfPrefix(s: seq<byte>)
    requires |s| >= 4
    ensures Long(s[..4]) == Long(s)
  {
  }

  lemma EntryRoundTrip(e: Entry, compact: bool, rest: seq<byte>)
    requires EntryOk(e)
    ensures var b := EncodeEntry(e, compact) + rest;
            EntryFits(b, compact) && FirstCall(b, compact) == Told(e, compact) && b[EntrySize(b, compact)..] == rest
  {
    hide Le, Long, CString, EncodeEntry;
    var b := EncodeEntry(e, compact) + rest;
    var n := 2 + |e.name|;
    EntryShape(e, compact, rest);
    Terminated(e.name, []);
    if !compact {
      LowHalf(e.size, 8);
      LowHalf(e.mtime, 8);
      LongOfPrefix(Le(e.size, 8));
      LongOfPrefix(Le(e.mtime, 8));
      assert b[n..n + 4] == Le(e.size, 8)[..4] && b[n + 8..n + 12] == Le(e.mtime, 8)[..4];
    }
  }

  lemma {:induction false} EntriesRoundTrip(es: seq<Entry>, compact: bool)
    requires EntriesOk(es)
    ensures DecodeEntries(EncodeEntries(es, compact), |es|, compact) == Decoded(AllTold(es, compact), None)
  {
    hide EntryFits, FirstCall, EncodeEntry, Told, EntrySize;
    if es != [] {
      EntryRoundTrip(es[0], compact, EncodeEntries(es[1..], compact));
      EntriesRoundTrip(es[1..], compact);
    }
  }

  lemma PageShape(es: seq<Entry>, flags: byte, gap: (byte, byte, byte, byte))
    requires EntriesOk(es) && |EncodePage(es, flags, gap)| <= IO_BUF_SIZE
    ensures var b, body := EncodePage(es, flags, gap), EncodeEntries(es, Compact(flags));
            && |b| == HEADER + |body| && b[0] == VERSION && b[1] == flags && b[HEADER..] == body
            && U16(b[6], b[7]) == |es| && U16(b[8], b[9]) == |body|
  {
    hide EncodeEntries, Le, U16;
    var body := EncodeEntries(es, Compact(flags));
    EncodedSize(es, Compact(flags));
    Word(|es|);
    Word(|body|);
    var head := [VERSION, flags, gap.0, gap.1, gap.2, gap.3] + Le(|es|, 2) + Le(|body|, 2);
    assert head == [VERSION, flags, gap.0, gap.1, gap.2, gap.3, Lo(|es|), Hi(|es|), Lo(|body|), Hi(|body|)];
  }

  /** A page that fits the client's buffer decodes to its entries, in order. */
  lemma PageRoundTrip(es: seq<Entry>, flags: byte, gap: (byte, byte, byte, byte))
    requires EntriesOk(es) && |EncodePage(es, flags, gap)| <= IO_BUF_SIZE
    ensures Decode(EncodePage(es, flags, gap)) == Decoded(AllTold(es, Compact(flags)), None)
    ensures var b := EncodePage(es, flags, gap); |b| >= HEADER && b[1] == flags && U16(b[6], b[7]) == |es|
  {
    hide DecodeEntries, EncodeEntries, EncodePage, U16;
    PageShape(es, flags, gap);
    EntriesRoundTrip(es, Compact(flags));
  }

  /** The same with the forms of the entries of earlier pages at hand. */
  lemma PageTold(es: seq<Entry>, flags: byte, gap: (byte, byte, byte, byte), was: seq<bool>)
    requires EntriesOk(es) && |EncodePage(es, flags, gap)| <= IO_BUF_SIZE
    ensures var now := was + AllAlike(|es|, Compact(flags));
            && |now| == |was| + |es|
            && Decode(EncodePage(es, flags, gap)) == Decoded(ToldIn(es, now[|was|..]), None)
    ensures var b := EncodePage(es, flags, gap); |b| >= HEADER && b[1] == flags && U16(b[6], b[7]) == |es|
  {
    hide Decode, EncodePage, U16, AllTold, ToldIn;
    PageRoundTrip(es, flags, gap);
    ToldAlike(es, Compact(flags));
    assert (was + AllAlike(|es|, Compact(flags)))[|was|..] == AllAlike(|es|, Compact(flags));
  }

  lemma {:induction false} EncodedSize(es: seq<Entry>, compact: bool)
    requires EntriesOk(es)
    ensures 2 * |es| <= |EncodeEntries(es, compact)|
  {
    if es != [] {
      EncodedSize(es[1..], compact);
    }
  }
}
