/** The o65 profile of the resident payload: relocation tables, the link image
    they belong to, and what a loaded segment has to look like. */
module O65 {
  import opened Bytes

  const MEMORY: nat := 0x1_0000
  const ZP_BASE: nat := 0x82       // the cc65 zero-page bank
  const NO_OFFSET: nat := 0xffff   // the cursor before the first record

  // Segment numbers.
  const TEXT: byte := 2
  const DATA: byte := 3
  const BSS: byte := 4
  const ZERO_PAGE: byte := 5

  datatype Kind = Word | High(low: byte) | Low

  /** A relocation: where, which part of the address, and the segment it is an
      address in. HIGH carries the low byte of the link address, which the
      patched segment does not hold. */
  datatype Site = Site(offset: nat, kind: Kind, seg: byte)

  predicate Bytes64K(mem: seq<byte>) {
    |mem| == MEMORY
  }

  // ------------------------------------------------------------------ parsing

  datatype Table = BadTable | Table(sites: seq<Site>, rest: seq<byte>)

  function Prepend(done: seq<Site>, t: Table): Table {
    if t.BadTable? then t else Table(done + t.sites, t.rest)
  }

  predicate KnownSegment(seg: byte) {
    TEXT <= seg <= ZERO_PAGE
  }

  predicate InSegment(offset: nat, size: nat) {
    offset < size
  }

  /** The loader's test for a WORD: the byte after it, modulo 2^16. */
  predicate WordInSegment(offset: nat, size: nat) {
    (offset + 1) % WORD < size
  }

  /** The relocation records of one segment up to the terminating zero, as the
      loader accepts them; `offset` is the cursor the next delta starts from. */
  function ParseTable(b: seq<byte>, offset: nat, size: nat): Table
    decreases |b|
  {
    if b == [] then BadTable
    else if b[0] == 0 then Table([], b[1..])
    else if b[0] == 0xff then ParseTable(b[1..], (offset + 254) % WORD, size)
    else ParseRecord(b[1..], (offset + b[0]) % WORD, size)
  }

  /** The descriptor of a record at offset `at`, and what follows it. */
  function ParseRecord(b: seq<byte>, at: nat, size: nat): Table
    decreases |b|
  {
    if b == [] || !KnownSegment(b[0] % 8) then BadTable else
      var seg := b[0] % 8;
      if b[0] / 32 == 4 && WordInSegment(at, size) then
        Prepend([Site(at, Word, seg)], ParseTable(b[1..], at, size))
      else if b[0] / 32 == 2 && InSegment(at, size) && |b| >= 2 then
        Prepend([Site(at, High(b[1]), seg)], ParseTable(b[2..], at, size))
      else if b[0] / 32 == 1 && InSegment(at, size) then
        Prepend([Site(at, Low, seg)], ParseTable(b[1..], at, size))
      else BadTable
  }

  // ----------------------------------------------------------------- patching

  function Base(s: Site, start: nat): nat {
    if s.seg == ZERO_PAGE then ZP_BASE else start
  }

  /** ADC into one byte. */
  function Plus(a: byte, b: byte, carry: bool): byte {
    (a + b + if carry then 1 else 0) % 256
  }

  predicate Carries(a: byte, b: byte, carry: bool) {
    a + b + (if carry then 1 else 0) >= 256
  }

  /** One record applied to memory, byte by byte with its carry. */
  function Patch(mem: seq<byte>, s: Site, ptr: nat, start: nat): (r: seq<byte>)
    requires Bytes64K(mem)
    ensures Bytes64K(r)
  {
    var base := Base(s, start);
    var at := (ptr + s.offset) % WORD;
    match s.kind
    case Low => mem[at := Plus(mem[at], Lo(base), false)]
    case High(low) => mem[at := Plus(mem[at], Plus(Hi(base), 0, Carries(low, Lo(base), false)), false)]
    case Word =>
      var carry := Carries(mem[at], Lo(base), false);
      var mem1 := mem[at := Plus(mem[at], Lo(base), false)];
      mem1[(at + 1) % WORD := Plus(mem1[(at + 1) % WORD], Hi(base), carry)]
  }

  function PatchAll(mem: seq<byte>, sites: seq<Site>, ptr: nat, start: nat): (r: seq<byte>)
    requires Bytes64K(mem)
    ensures Bytes64K(r)
  {
    if sites == [] then mem
    else Patch(PatchAll(mem, sites[..|sites| - 1], ptr, start), sites[|sites| - 1], ptr, start)
  }

  // The steps of the loader's loop over a table, `done` being the sites so far.

  lemma NothingDone(b: seq<byte>, mem: seq<byte>, size: nat, ptr: nat, start: nat)
    requires Bytes64K(mem)
    ensures ParseTable(b, NO_OFFSET, size) == Prepend([], ParseTable(b, NO_OFFSET, size))
    ensures PatchAll(mem, [], ptr, start) == mem
  {
  }

  lemma TableEnds(b: seq<byte>, done: seq<Site>, offset: nat, size: nat)
    requires b != [] && b[0] == 0
    ensures Prepend(done, ParseTable(b, offset, size)) == Table(done, b[1..])
  {
  }

  lemma EmptyIsBad(offset: nat, size: nat)
    ensures ParseTable([], offset, size) == BadTable
  {
  }

  lemma ChainStep(b: seq<byte>, offset: nat, size: nat)
    requires b != [] && b[0] == 0xff
    ensures ParseTable(b, offset, size) == ParseTable(b[1..], (offset + 254) % WORD, size)
  {
  }

  lemma DeltaStep(b: seq<byte>, offset: nat, size: nat)
    requires b != [] && b[0] != 0 && b[0] != 0xff
    ensures ParseTable(b, offset, size) == ParseRecord(b[1..], (offset + b[0]) % WORD, size)
  {
  }

  lemma OneMoreSite(done: seq<Site>, s: Site, t: Table)
    ensures Prepend(done, Prepend([s], t)) == Prepend(done + [s], t)
  {
    if t.Table? {
      assert done + ([s] + t.sites) == (done + [s]) + t.sites;
    }
  }

  lemma PatchedOneMore(mem: seq<byte>, done: seq<Site>, s: Site, ptr: nat, start: nat)
    requires Bytes64K(mem)
    ensures PatchAll(mem, done + [s], ptr, start) == Patch(PatchAll(mem, done, ptr, start), s, ptr, start)
  {
    assert (done + [s])[..|done|] == done;
  }

  // ----------------------------------------------------------------- encoding

  function Width(k: Kind): nat {
    if k.Word? then 2 else 1
  }

  /** Strictly increasing, non-overlapping sites inside a segment, each the
      address of something in TEXT, DATA, BSS or the zero page. */
  predicate Spaced(sites: seq<Site>, from: nat, size: nat) {
    && (forall i :: 0 <= i < |sites| ==> KnownSegment(sites[i].seg))
    && (forall i :: 0 <= i < |sites| ==> from <= sites[i].offset && sites[i].offset + Width(sites[i].kind) <= size)
    && (forall i, j :: 0 <= i < j < |sites| ==> sites[i].offset + Width(sites[i].kind) <= sites[j].offset)
  }

  /** A distance as a delta byte, 254 at a time while it does not fit. */
  function EncodeDelta(d: nat): seq<byte>
    requires d > 0
  {
    if d > 254 then [0xff] + EncodeDelta(d - 254) else [d]
  }

  function Descriptor(s: Site): byte
    requires KnownSegment(s.seg)
  {
    (match s.kind case Word => 0x80 case High(_) => 0x40 case Low => 0x20) + s.seg
  }

  /** The table of a segment, with `next` one past the previous site's offset. */
  function EncodeTable(sites: seq<Site>, next: nat): seq<byte>
    requires forall i :: 0 <= i < |sites| ==> next <= sites[i].offset && KnownSegment(sites[i].seg)
    requires forall i, j :: 0 <= i < j < |sites| ==> sites[i].offset < sites[j].offset
  {
    if sites == [] then [0] else
      var s := sites[0];
      EncodeDelta(s.offset + 1 - next) + EncodeRecord(s)
      + EncodeTable(sites[1..], s.offset + 1)
  }

  /** The cursor that belongs to `next`. */
  function Cursor(next: nat): nat {
    if next == 0 then NO_OFFSET else next - 1
  }

  lemma CursorAdvances(next: nat, d: nat)
    requires next + d <= WORD && 0 < d <= 254
    ensures (Cursor(next) + d) % WORD == next + d - 1
    ensures next + 254 < WORD ==> (Cursor(next) + 254) % WORD == Cursor(next + 254)
  {
  }

  lemma {:induction false} DeltaParses(d: nat, next: nat, tail: seq<byte>, size: nat)
    requires 0 < d && next + d <= WORD
    ensures ParseTable(EncodeDelta(d) + tail, Cursor(next), size) == ParseRecord(tail, next + d - 1, size)
  {
    hide ParseTable, ParseRecord, Cursor;
    if d > 254 {
      assert EncodeDelta(d) + tail == [0xff] + (EncodeDelta(d - 254) + tail);
      TableInBytes(0xff, EncodeDelta(d - 254) + tail, Cursor(next), size);
      CursorAdvances(next, 254);
      DeltaParses(d - 254, next + 254, tail, size);
    } else {
      TableInBytes(d, tail, Cursor(next), size);
      CursorAdvances(next, d);
    }
  }

  function EncodeRecord(s: Site): seq<byte>
    requires KnownSegment(s.seg)
  {
    [Descriptor(s)] + if s.kind.High? then [s.kind.low] else []
  }

  lemma RecordParses(s: Site, more: seq<byte>, size: nat)
    requires s.offset + Width(s.kind) <= size < WORD && KnownSegment(s.seg)
    ensures ParseRecord(EncodeRecord(s) + more, s.offset, size) == Prepend([s], ParseTable(more, s.offset, size))
  {
    var b := EncodeRecord(s) + more;
    assert b[0] == Descriptor(s);
    assert b[|EncodeRecord(s)|..] == more;
  }

  lemma EncodedHead(sites: seq<Site>, next: nat, size: nat, rest: seq<byte>)
    requires Spaced(sites, next, size) && sites != []
    ensures var s := sites[0];
            && KnownSegment(s.seg) && next <= s.offset && s.offset + Width(s.kind) <= size
            && Spaced(sites[1..], s.offset + 1, size)
            && EncodeTable(sites, next) + rest
               == EncodeDelta(s.offset + 1 - next) + (EncodeRecord(s) + (EncodeTable(sites[1..], s.offset + 1) + rest))
  {
  }

  lemma EmptyTable(next: nat, size: nat, rest: seq<byte>)
    ensures ParseTable(EncodeTable([], next) + rest, Cursor(next), size) == Table([], rest)
  {
    assert ([0] + rest)[1..] == rest;
  }

  /** Round trip: the encoded table of any spaced sites parses back to them. */
  lemma {:induction false} TableRoundTrip(sites: seq<Site>, next: nat, size: nat, rest: seq<byte>)
    requires Spaced(sites, next, size) && size < WORD
    ensures ParseTable(EncodeTable(sites, next) + rest, Cursor(next), size) == Table(sites, rest)
    decreases |sites|
  {
    hide ParseTable, ParseRecord, EncodeTable, EncodeRecord, EncodeDelta;
    if sites == [] {
      EmptyTable(next, size, rest);
    } else {
      var s := sites[0];
      EncodedHead(sites, next, size, rest);
      var more := EncodeTable(sites[1..], s.offset + 1) + rest;
      DeltaParses(s.offset + 1 - next, next, EncodeRecord(s) + more, size);
      RecordParses(s, more, size);
      TableRoundTrip(sites[1..], s.offset + 1, size, rest);
      assert Cursor(s.offset + 1) == s.offset;
      assert [s] + sites[1..] == sites;
    }
  }

  /** A WORD at offset 3 that refers to BSS is the table 4, $84, 0. */
  lemma FirstRecord(size: nat)
    requires 5 <= size < WORD
    ensures Spaced([Site(3, Word, BSS)], 0, size) && EncodeTable([Site(3, Word, BSS)], 0) == [4, 0x84, 0]
  {
    assert EncodeDelta(4) == [4];
  }

  /** One record as its bytes: the kind in the three top bits, the segment in the
      three bottom ones, the two between without meaning; a HIGH is followed by the
      low byte of its link address. Nothing else is a record. */
  lemma RecordInBytes(d: byte, more: seq<byte>, at: nat, size: nat)
    ensures var r := ParseRecord([d] + more, at, size);
            if 2 <= d % 8 <= 5 && 0x80 <= d < 0xa0 && (at + 1) % 65536 < size then
              r == Prepend([Site(at, Word, d % 8)], ParseTable(more, at, size))
            else if 2 <= d % 8 <= 5 && 0x40 <= d < 0x60 && at < size && more != [] then
              r == Prepend([Site(at, High(more[0]), d % 8)], ParseTable(more[1..], at, size))
            else if 2 <= d % 8 <= 5 && 0x20 <= d < 0x40 && at < size then
              r == Prepend([Site(at, Low, d % 8)], ParseTable(more, at, size))
            else r == BadTable
  {
    var b := [d] + more;
    assert b[0] == d && b[1..] == more && (more != [] ==> b[2..] == more[1..]);
  }

  /** A table as its bytes: it ends at 0; $FF moves the cursor by 254; any other
      byte moves it to the next record, modulo 2^16. */
  lemma TableInBytes(first: byte, more: seq<byte>, offset: nat, size: nat)
    ensures ParseTable([], offset, size) == BadTable
    ensures ParseTable([first] + more, offset, size) ==
            if first == 0 then Table([], more)
            else if first == 0xff then ParseTable(more, (offset + 254) % 65536, size)
            else ParseRecord(more, (offset + first) % 65536, size)
  {
    var b := [first] + more;
    assert b[0] == first && b[1..] == more;
  }

  // ------------------------------------------------------------------ meaning

  predicate Covers(s: Site, ptr: nat, a: nat) {
    ptr + s.offset <= a < ptr + s.offset + Width(s.kind)
  }

  /** What relocating a site means: the part of the link address it holds has
      become the same part of the address it stands for now, which is link address
      plus start for TEXT (2), DATA (3) and BSS (4), plus $82 for the zero page. */
  predicate Relocated(before: seq<byte>, after: seq<byte>, s: Site, ptr: nat, start: nat)
    requires Bytes64K(before) && Bytes64K(after)
    requires ptr + s.offset + Width(s.kind) <= MEMORY
  {
    var at := ptr + s.offset;
    var was: seq<int>, now: seq<int> := before, after;
    var base := if s.seg == 5 then 0x82 else start;
    match s.kind
    case Word => now[at] + 256 * now[at + 1] == (was[at] + 256 * was[at + 1] + base) % 65536
    case High(low) => now[at] == (low + 256 * was[at] + base) / 256 % 256
    case Low => now[at] == (was[at] + base) % 256
  }

  lemma PlusCarry(a: byte, b: byte, carry: bool)
    ensures Plus(a, b, carry) == a + b + (if carry then 1 else 0) - if Carries(a, b, carry) then 256 else 0
  {
  }

  lemma TwoParts(n: nat)
    requires n < WORD
    ensures n == Lo(n) + 256 * Hi(n)
  {
  }

  lemma HighPart(low: byte, high: nat)
    ensures Hi(low + 256 * high) == high % 256
  {
  }

  lemma HighCarry(link: nat, base: nat)
    requires link < WORD && base < WORD
    ensures Hi(link + base) == Plus(Hi(link), Plus(Hi(base), 0, Carries(Lo(link), Lo(base), false)), false)
  {
    hide Plus, Carries, Lo, Hi;
    TwoParts(link);
    TwoParts(base);
    var carry := Carries(Lo(link), Lo(base), false);
    var addend := Plus(Hi(base), 0, carry);
    PlusCarry(Lo(link), Lo(base), false);
    PlusCarry(Hi(base), 0, carry);
    PlusCarry(Hi(link), addend, false);
    HighPart(Plus(Lo(link), Lo(base), false), Hi(link) + Hi(base) + if carry then 1 else 0);
  }

  lemma WordCarry(lo: byte, hi: byte, base: nat)
    requires base < WORD
    ensures U16(Plus(lo, Lo(base), false), Plus(hi, Hi(base), Carries(lo, Lo(base), false)))
              == (U16(lo, hi) + base) % WORD
  {
    hide Plus, Carries, Lo, Hi;
    TwoParts(base);
    var carry := Carries(lo, Lo(base), false);
    PlusCarry(lo, Lo(base), false);
    PlusCarry(hi, Hi(base), carry);
    var d := if Carries(hi, Hi(base), carry) then 1 else 0;
    assert U16(Plus(lo, Lo(base), false), Plus(hi, Hi(base), carry)) == U16(lo, hi) + base - WORD * d;
  }

  lemma LowPart(a: byte, base: nat)
    ensures Plus(a, Lo(base), false) == Lo(a as nat + base)
  {
    assert base == Lo(base) + 256 * (base / 256);
  }

  lemma LinkParts(low: byte, high: byte)
    ensures Lo(U16(low, high)) == low && Hi(U16(low, high)) == high && U16(low, high) < WORD
    ensures U16(low, high) == low as int + 256 * (high as int)
  {
  }

  lemma BytesOf(n: nat)
    ensures Lo(n) == n % 256 && Hi(n) == n / 256 % 256
  {
  }

  lemma PatchRelocates(mem: seq<byte>, s: Site, ptr: nat, start: nat)
    requires Bytes64K(mem) && start < WORD && ptr + s.offset + Width(s.kind) <= MEMORY
    ensures Relocated(mem, Patch(mem, s, ptr, start), s, ptr, start)
    ensures forall a :: 0 <= a < MEMORY && !Covers(s, ptr, a) ==> Patch(mem, s, ptr, start)[a] == mem[a]
  {
    hide U16, Lo, Hi, Plus, Carries;
    var at := ptr + s.offset;
    var base := Base(s, start);
    match s.kind
    case Word =>
      var after := Patch(mem, s, ptr, start);
      WordCarry(mem[at], mem[at + 1], base);
      LinkParts(mem[at], mem[at + 1]);
      LinkParts(after[at], after[at + 1]);
    case High(low) =>
      LinkParts(low, mem[at]);
      HighCarry(U16(low, mem[at]), base);
      BytesOf(U16(low, mem[at]) + base);
    case Low =>
      LowPart(mem[at], base);
      BytesOf(mem[at] as nat + base);
  }

  predicate AgreeOn(m: seq<byte>, n: seq<byte>, s: Site, ptr: nat)
    requires Bytes64K(m) && Bytes64K(n)
  {
    forall a :: 0 <= a < MEMORY && Covers(s, ptr, a) ==> m[a] == n[a]
  }

  lemma RelocatedLocally(m: seq<byte>, m': seq<byte>, after: seq<byte>, after': seq<byte>, s: Site, ptr: nat,
                         start: nat)
    requires Bytes64K(m) && Bytes64K(m') && Bytes64K(after) && Bytes64K(after')
    requires ptr + s.offset + Width(s.kind) <= MEMORY && Relocated(m, after, s, ptr, start)
    requires AgreeOn(m, m', s, ptr) && AgreeOn(after, after', s, ptr)
    ensures Relocated(m', after', s, ptr, start)
  {
    var at := ptr + s.offset;
    assert Covers(s, ptr, at) && (s.kind.Word? ==> Covers(s, ptr, at + 1));
  }

  ghost predicate AllRelocated(before: seq<byte>, after: seq<byte>, sites: seq<Site>, ptr: nat, size: nat, start: nat)
    requires Bytes64K(before) && Bytes64K(after) && ptr + size <= MEMORY && Spaced(sites, 0, size)
  {
    && (forall i :: 0 <= i < |sites| ==> Relocated(before, after, sites[i], ptr, start))
    && (forall a :: 0 <= a < MEMORY && Uncovered(sites, ptr, a) ==> after[a] == before[a])
  }

  predicate Uncovered(sites: seq<Site>, ptr: nat, a: nat) {
    forall i :: 0 <= i < |sites| ==> !Covers(sites[i], ptr, a)
  }

  /** Patching spaced sites relocates every one of them, from its original
      bytes, and changes nothing else. */
  lemma {:induction false} PatchAllRelocates(mem: seq<byte>, sites: seq<Site>, ptr: nat, size: nat, start: nat)
    requires Bytes64K(mem) && start < WORD && ptr + size <= MEMORY && Spaced(sites, 0, size)
    ensures AllRelocated(mem, PatchAll(mem, sites, ptr, start), sites, ptr, size, start)
    decreases |sites|
  {
    if sites != [] {
      var n := |sites| - 1;
      var init := sites[..n];
      assert forall i :: 0 <= i < n ==> init[i] == sites[i];
      PatchAllRelocates(mem, init, ptr, size, start);
      OneMoreRelocated(mem, PatchAll(mem, init, ptr, start), sites, ptr, size, start);
    }
  }

  lemma OneMoreRelocated(mem: seq<byte>, mid: seq<byte>, sites: seq<Site>, ptr: nat, size: nat, start: nat)
    requires Bytes64K(mem) && Bytes64K(mid) && start < WORD && ptr + size <= MEMORY
    requires sites != [] && Spaced(sites, 0, size) && Spaced(sites[..|sites| - 1], 0, size)
    requires AllRelocated(mem, mid, sites[..|sites| - 1], ptr, size, start)
    ensures AllRelocated(mem, Patch(mid, sites[|sites| - 1], ptr, start), sites, ptr, size, start)
  {
    hide Relocated, Patch;
    var n := |sites| - 1;
    var s, init := sites[n], sites[..n];
    var after := Patch(mid, s, ptr, start);
    PatchRelocates(mid, s, ptr, start);
    assert AgreeOn(mid, mem, s, ptr) by {
      forall a | 0 <= a < MEMORY && Covers(s, ptr, a) ensures mid[a] == mem[a] {
        assert Uncovered(init, ptr, a);
      }
    }
    RelocatedLocally(mid, mem, after, after, s, ptr, start);
    forall i | 0 <= i < n ensures Relocated(mem, after, sites[i], ptr, start) {
      assert init[i] == sites[i];
      RelocatedLocally(mem, mem, mid, after, sites[i], ptr, start);
    }
    forall a | 0 <= a < MEMORY && Uncovered(sites, ptr, a) ensures after[a] == mem[a] {
      assert Uncovered(init, ptr, a);
    }
  }

  // ----------------------------------------------------- bounds for any table

  /** What the loader's own tests guarantee about a record it applies. */
  predicate Checked(s: Site, size: nat) {
    s.offset < WORD && if s.kind.Word? then WordInSegment(s.offset, size) else InSegment(s.offset, size)
  }

  lemma {:induction false} ParsedSitesAreChecked(b: seq<byte>, offset: nat, size: nat)
    requires offset < WORD
    ensures var t := ParseTable(b, offset, size);
            t.Table? ==> |t.rest| < |b| && forall i :: 0 <= i < |t.sites| ==> Checked(t.sites[i], size)
    decreases |b|, 1
  {
    if b != [] && b[0] != 0 {
      if b[0] == 0xff {
        ParsedSitesAreChecked(b[1..], (offset + 254) % WORD, size);
      } else {
        ParsedRecordIsChecked(b[1..], (offset + b[0]) % WORD, size);
      }
    }
  }

  lemma {:induction false} ParsedRecordIsChecked(b: seq<byte>, at: nat, size: nat)
    requires at < WORD
    ensures var t := ParseRecord(b, at, size);
            t.Table? ==> |t.rest| < |b| && forall i :: 0 <= i < |t.sites| ==> Checked(t.sites[i], size)
    decreases |b|, 0
  {
    if b != [] {
      ParsedSitesAreChecked(b[1..], at, size);
      if |b| >= 2 {
        ParsedSitesAreChecked(b[2..], at, size);
      }
    }
  }

  /** A checked record stays in its segment, except that a WORD at the cursor's
      start value $FFFF also reaches the byte before the segment. */
  lemma CheckedStays(s: Site, size: nat)
    requires Checked(s, size) && size < WORD
    ensures s.offset + Width(s.kind) <= size <==> !(s.kind.Word? && s.offset == NO_OFFSET)
  {
  }

  lemma PatchStays(mem: seq<byte>, s: Site, ptr: nat, size: nat, start: nat)
    requires Bytes64K(mem) && 0 < ptr && ptr + size <= MEMORY && Checked(s, size) && size < WORD
    ensures forall a :: 0 <= a < MEMORY && !(ptr - 1 <= a < ptr + size) ==> Patch(mem, s, ptr, start)[a] == mem[a]
    ensures !(s.kind.Word? && s.offset == NO_OFFSET) ==> Patch(mem, s, ptr, start)[ptr - 1] == mem[ptr - 1]
  {
  }

  /** No WORD of the table lands on the cursor's start value. */
  predicate NoStray(sites: seq<Site>) {
    forall i :: 0 <= i < |sites| ==> !(sites[i].kind.Word? && sites[i].offset == NO_OFFSET)
  }

  /** Any table the loader accepts, from whatever bytes, leaves everything but
      its segment alone, if no WORD lands on $FFFF. */
  lemma {:induction false} PatchAllStays(mem: seq<byte>, sites: seq<Site>, ptr: nat, size: nat, start: nat)
    requires Bytes64K(mem) && 0 < ptr && ptr + size <= MEMORY && size < WORD
    requires forall i :: 0 <= i < |sites| ==> Checked(sites[i], size)
    ensures var after := PatchAll(mem, sites, ptr, start);
            && (forall a :: 0 <= a < MEMORY && !(ptr - 1 <= a < ptr + size) ==> after[a] == mem[a])
            && (NoStray(sites) ==> after[ptr - 1] == mem[ptr - 1])
    decreases |sites|
  {
    if sites != [] {
      var n := |sites| - 1;
      PatchAllStays(mem, sites[..n], ptr, size, start);
      PatchStays(PatchAll(mem, sites[..n], ptr, start), sites[n], ptr, size, start);
    }
  }

  function Chain(n: nat): seq<byte> {
    if n == 0 then [] else [0xff] + Chain(n - 1)
  }

  lemma {:induction false} ChainAdvances(n: nat, offset: nat, tail: seq<byte>, size: nat)
    requires offset < WORD
    ensures ParseTable(Chain(n) + tail, offset, size) == ParseTable(tail, (offset + 254 * n) % WORD, size)
  {
    if n == 0 {
      assert Chain(0) + tail == tail;
    } else {
      hide ParseTable;
      assert Chain(n) + tail == [0xff] + (Chain(n - 1) + tail);
      TableInBytes(0xff, Chain(n - 1) + tail, offset, size);
      CursorSteps(offset, n);
      var on := (offset + 254) % WORD;
      ChainAdvances(n - 1, on, tail, size);
    }
  }

  lemma CursorSteps(offset: nat, n: nat)
    requires offset < WORD && n > 0
    ensures ((offset + 254) % WORD + 254 * (n - 1)) % WORD == (offset + 254 * n) % WORD
  {
    if offset + 254 >= WORD {
      assert offset + 254 * n == (offset + 254 - WORD + 254 * (n - 1)) + WORD;
    }
  }

  lemma StrayTableParses(size: nat)
    requires 0 < size < WORD
    ensures ParseTable([4, 0x82, 0], 65531, size) == Table([Site(NO_OFFSET, Word, TEXT)], [])
  {
    var tail: seq<byte> := [4, 0x82, 0];
    var record: seq<byte> := [0x82, 0];
    var end: seq<byte> := [0];
    assert tail[1..] == record && record[1..] == end && end[1..] == [];
    assert ParseTable(end, NO_OFFSET, size) == Table([], []);
    assert ParseRecord(record, NO_OFFSET, size)
             == Prepend([Site(NO_OFFSET, Word, TEXT)], ParseTable(end, NO_OFFSET, size));
    assert ParseTable(tail, 65531, size) == ParseRecord(record, (65531 + 4) % WORD, size);
  }

  /** Such a table exists: for every nonempty segment, 258 bytes $FF, a delta of
      4 and a WORD pass all the loader's tests and change the byte before it. */
  lemma StrayTable(mem: seq<byte>, ptr: nat, size: nat, start: nat)
    requires Bytes64K(mem) && 0 < ptr && ptr + size <= MEMORY && 0 < size < WORD && start % 256 != 0
    ensures ParseTable(Chain(258) + [4, 0x82, 0], NO_OFFSET, size) == Table([Site(NO_OFFSET, Word, TEXT)], [])
    ensures Patch(mem, Site(NO_OFFSET, Word, TEXT), ptr, start)[ptr - 1] != mem[ptr - 1]
  {
    hide ParseTable, Chain, Patch;
    ChainAdvances(258, NO_OFFSET, [4, 0x82, 0], size);
    StrayTableParses(size);
    StrayPatch(mem, ptr, start);
  }

  lemma StrayPatch(mem: seq<byte>, ptr: nat, start: nat)
    requires Bytes64K(mem) && 0 < ptr <= MEMORY && start % 256 != 0
    ensures Patch(mem, Site(NO_OFFSET, Word, TEXT), ptr, start)[ptr - 1] != mem[ptr - 1]
  {
    assert (ptr + NO_OFFSET) % WORD == ptr - 1;
  }
}
